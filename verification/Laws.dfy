/** What follows about whole saves: which session a stored row is attributed to, what a retry does
    to a session, and how much of the outcome depends on where batches are cut. */
module Laws {
  import opened Events
  import opened Timeline
  import opened Sessions
  import opened CopyFrom
  import opened Tables

  /** The parts one after the other: batches or, save by save, touches. */
  function Concat<T>(parts: seq<seq<T>>): seq<T> {
    if parts == [] then [] else Concat(Front(parts)) + Last(parts)
  }

  lemma {:induction false} Associative<T>(a: seq<T>, b: seq<T>, c: seq<T>)
    ensures (a + b) + c == a + (b + c)
  {
  }

  // ---------- where in the runs a touch ends up ----------

  /** One more touch, whether it joins the last run or opens another, moves no earlier one. */
  lemma {:induction false} MoreKeepsRun(runs: seq<seq<Touch>>, i: nat, t: Touch, more: Touch)
    requires i < |runs| && t in runs[i]
    ensures t in (runs + [[more]])[i] && t in Extend(runs, [more])[i]
  {
    if i == |runs| - 1 {
      assert Extend(runs, [more])[i] == runs[i] + [more];
    }
  }

  /** Later touches never move an earlier one into another run. */
  lemma {:induction false} RunKeepsTouch(tl: seq<Touch>, more: seq<Touch>, timeout: int)
    requires tl != []
    ensures |Runs(tl + more, timeout)| >= |Runs(tl, timeout)|
    ensures Last(tl) in Runs(tl + more, timeout)[|Runs(tl, timeout)| - 1]
  {
    hide Runs;
    RunsCount(tl, more, timeout);
    if more == [] {
      assert tl + more == tl;
      LastOfRuns(tl, timeout);
    } else {
      RunKeepsTouch(tl, Front(more), timeout);
      assert tl + more == (tl + Front(more)) + [Last(more)];
      RunsSnoc(tl + Front(more), Last(more), timeout);
      MoreKeepsRun(Runs(tl + Front(more), timeout), |Runs(tl, timeout)| - 1, Last(tl), Last(more));
    }
  }

  /** The session a touch names is the row of the run the touch was in when it committed. */
  lemma {:induction false} TouchNamesRow(sessions: seq<SessionRow>, log: seq<Touch>, visitor: string,
                                         tl: seq<Touch>, more: seq<Touch>, timeout: int)
    requires Refines(sessions, log, timeout) && TouchesOf(log, visitor) == tl + more && tl != []
    ensures |Runs(tl, timeout)| <= |RowsOf(sessions, visitor)|
    ensures RowsOf(sessions, visitor)[|Runs(tl, timeout)| - 1].id == Last(tl).session
  {
    hide Runs, TouchesOf, RowsOf;
    RunKeepsTouch(tl, more, timeout);
    assert VisitorAgrees(sessions, log, timeout, visitor);
    var run := Runs(tl + more, timeout)[|Runs(tl, timeout)| - 1];
    assert OneSession(run);
    var k :| 0 <= k < |run| && run[k] == Last(tl);
  }

  // ---------- attribution ----------

  /** The session of the last touch of `v` in `log`, and that of the last touch in the first part of
      it, are the same exactly when no long gap lies between. */
  lemma {:induction false} SameSessionExact(sessions: seq<SessionRow>, log: seq<Touch>, v: string,
                                            tl: seq<Touch>, more: seq<Touch>, timeout: int)
    requires Refines(sessions, log, timeout) && TouchesOf(log, v) == tl + more && tl != []
    ensures Last(tl).session == Last(tl + more).session <==> Unbroken([Last(tl)] + more, timeout)
  {
    TouchNamesRow(sessions, log, v, tl, more, timeout);
    assert (tl + more) + [] == tl + more;
    TouchNamesRow(sessions, log, v, tl + more, [], timeout);
    RowsOfAscending(sessions, v);
    RunsCount(tl, more, timeout);
    assert VisitorAgrees(sessions, log, timeout, v);
  }

  /** A stored row names its own transaction's session exactly when the visitor's session did not
      split later in the same batch; otherwise it names the later one. */
  lemma {:induction false} AttributionExact(t: Tables, u: Tables, touches: seq<Touch>, batch: seq<Event>, timeout: int, k: nat)
    requires Inv(t, timeout) && Saves(t, u, touches, batch, timeout, true) && k < |batch|
    ensures var v, row := batch[k].visitorId, u.events[|t.events| + k];
            && TouchesOf(touches, v) != [] && row.sessionId == Last(TouchesOf(touches, v)).session
            && (row.sessionId == touches[k].session <==>
                Unbroken([touches[k]] + TouchesOf(touches[k + 1..], v), timeout))
  {
    SaveKeepsSessions(t, u, touches, batch, timeout, true);
    assert touches[k].event == batch[k];
    AttributionCore(t.log, touches, u.sessions, timeout, k);
  }

  lemma {:induction false} AttributionCore(log: seq<Touch>, touches: seq<Touch>, sessions: seq<SessionRow>, timeout: int, k: nat)
    requires Refines(sessions, log + touches, timeout) && k < |touches|
    ensures var v := touches[k].event.visitorId;
            && TouchesOf(touches, v) != []
            && v in LastSessions(touches) && LastSessions(touches)[v] == Last(TouchesOf(touches, v)).session
            && (Last(TouchesOf(touches, v)).session == touches[k].session <==>
                Unbroken([touches[k]] + TouchesOf(touches[k + 1..], v), timeout))
  {
    var v := touches[k].event.visitorId;
    var head, tail := log + touches[..k + 1], touches[k + 1..];
    assert Front(head) == log + touches[..k] && Last(head) == touches[k];
    assert log + touches == head + tail;
    TouchesOfConcat(head, tail, v);
    TouchesOfConcat(log, touches, v);
    SameSessionExact(sessions, log + touches, v, TouchesOf(head, v), TouchesOf(tail, v), timeout);
    TouchesOfMembers(touches, v);
    LastSessionsMeaning(touches, v);
  }

  // ---------- retries ----------

  ghost predicate AllPassive(touches: seq<Touch>) {
    forall i | 0 <= i < |touches| :: Passive(touches[i].event.name)
  }

  lemma {:induction false} BounceOfConcat(run: seq<Touch>, more: seq<Touch>)
    requires run != []
    ensures RowOf(run + more).bounce <==> RowOf(run).bounce && AllPassive(more)
  {
    var longer := run + more;
    if RowOf(longer).bounce {
      forall i | 0 < i < |run| ensures Passive(run[i].event.name) {
        assert longer[i] == run[i];
      }
      forall i | 0 <= i < |more| ensures Passive(more[i].event.name) {
        assert longer[|run| + i] == more[i];
      }
    }
  }

  lemma {:induction false} RowOfConcat(run: seq<Touch>, more: seq<Touch>)
    requires run != []
    ensures SameSession(RowOf(run), RowOf(run + more))
    ensures RowOf(run + more).bounce <==> RowOf(run).bounce && AllPassive(more)
  {
    BounceOfConcat(run, more);
  }

  /** Retry safety. Let some visitor have been touched before (by a failed attempt, say) and let a
      save touch it again. It gets no further session exactly when every new touch comes within the
      timeout of the one before; then only its last row changes, that row stays the same session,
      ends on the visitor's last path, and remains a bounce only if all the new touches are passive. */
  lemma {:induction false} RetryKeepsSession(t: Tables, u: Tables, touches: seq<Touch>, batch: seq<Event>,
                                             timeout: int, ok: bool, v: string)
    requires Inv(t, timeout) && Saves(t, u, touches, batch, timeout, ok) && TouchesOf(t.log, v) != []
    ensures RetrySafe(RowsOf(t.sessions, v), RowsOf(u.sessions, v), TouchesOf(t.log, v), TouchesOf(touches, v), timeout)
  {
    SaveKeepsSessions(t, u, touches, batch, timeout, ok);
    TouchesOfConcat(t.log, touches, v);
    assert VisitorAgrees(t.sessions, t.log, timeout, v);
    assert VisitorAgrees(u.sessions, u.log, timeout, v);
    RetryOfTimeline(TouchesOf(t.log, v), TouchesOf(touches, v), timeout);
  }

  /** `was` and `now` are a visitor's rows before and after `more` touches following `tl`. */
  ghost predicate RetrySafe(was: seq<SessionRow>, now: seq<SessionRow>, tl: seq<Touch>, more: seq<Touch>, timeout: int)
    requires tl != []
  {
    && 0 < |was| <= |now|
    && (|now| == |was| <==> Unbroken([Last(tl)] + more, timeout))
    && (|now| == |was| ==>
        && Front(now) == Front(was) && SameSession(Last(was), Last(now))
        && Last(now).exitPath == Last(tl + more).event.path
        && Last(now).updatedAt == Last(tl + more).at
        && (Last(now).bounce <==> Last(was).bounce && AllPassive(more)))
  }

  lemma {:induction false} RetryOfTimeline(tl: seq<Touch>, more: seq<Touch>, timeout: int)
    requires tl != []
    ensures RetrySafe(RowsFor(tl, timeout), RowsFor(tl + more, timeout), tl, more, timeout)
  {
    hide Runs, RowOf;
    RunsCount(tl, more, timeout);
    if Unbroken([Last(tl)] + more, timeout) {
      RunsExtend(tl, more, timeout);
      LastRowIsLastTouch(tl + more, timeout);
      RowOfConcat(Last(Runs(tl, timeout)), more);
    }
  }

  /** The events of one visitor, in batch order. */
  function EventsOf(batch: seq<Event>, v: string): seq<Event> {
    if batch == [] then []
    else if Last(batch).visitorId == v then EventsOf(Front(batch), v) + [Last(batch)]
    else EventsOf(Front(batch), v)
  }

  ghost predicate PassiveFrom(events: seq<Event>, from: nat) {
    forall i | from <= i < |events| :: Passive(events[i].name)
  }

  lemma {:induction false} TouchesServeEvents(touches: seq<Touch>, batch: seq<Event>, v: string)
    requires Serves(touches, batch) && |touches| == |batch|
    ensures |TouchesOf(touches, v)| == |EventsOf(batch, v)|
    ensures forall i | 0 <= i < |TouchesOf(touches, v)| :: TouchesOf(touches, v)[i].event == EventsOf(batch, v)[i]
  {
    if touches != [] {
      TouchesServeEvents(Front(touches), Front(batch), v);
    }
  }

  lemma {:induction false} EventsOfConcat(a: seq<Event>, b: seq<Event>, v: string)
    ensures EventsOf(a + b, v) == EventsOf(a, v) + EventsOf(b, v)
  {
    if b == [] {
      assert a + b == a;
    } else {
      assert Front(a + b) == a + Front(b);
      EventsOfConcat(a, Front(b), v);
    }
  }

  /** A failed save of some first part of the batch. */
  ghost predicate FailedOn(t: Tables, u: Tables, touches: seq<Touch>, batch: seq<Event>, timeout: int) {
    exists n :: 0 <= n <= |batch| && Saves(t, u, touches, batch[..n], timeout, false)
  }

  /** An outage: any number of failed saves, each of as much of the batch as had arrived. */
  ghost predicate FailedAll(t: Tables, u: Tables, touches: seq<seq<Touch>>, batch: seq<Event>, timeout: int)
    decreases |touches|
  {
    if touches == [] then u == t
    else exists mid ::
      && FailedAll(t, mid, Front(touches), batch, timeout)
      && FailedOn(mid, u, Last(touches), batch, timeout)
  }

  lemma {:induction false} OutageSnoc(t: Tables, mid: Tables, u: Tables, touches: seq<seq<Touch>>, more: seq<Touch>,
                                      batch: seq<Event>, timeout: int)
    requires FailedAll(t, mid, touches, batch, timeout) && Saves(mid, u, more, batch, timeout, false)
    ensures FailedAll(t, u, touches + [more], batch, timeout)
  {
    hide Saves;
    assert Front(touches + [more]) == touches;
    assert batch[..|batch|] == batch;
    assert FailedOn(mid, u, more, batch, timeout);
  }

  /** Events that arrive later were in no earlier attempt. */
  lemma {:induction false} OutageGoesOn(t: Tables, u: Tables, touches: seq<seq<Touch>>, batch: seq<Event>, e: Event, timeout: int)
    requires FailedAll(t, u, touches, batch, timeout)
    ensures FailedAll(t, u, touches, batch + [e], timeout)
    decreases |touches|
  {
    hide Saves;
    if touches != [] {
      var mid :| FailedAll(t, mid, Front(touches), batch, timeout) && FailedOn(mid, u, Last(touches), batch, timeout);
      OutageGoesOn(t, mid, Front(touches), batch, e, timeout);
      var n :| 0 <= n <= |batch| && Saves(mid, u, Last(touches), batch[..n], timeout, false);
      assert (batch + [e])[..n] == batch[..n];
    }
  }

  lemma {:induction false} OutageKeeps(t: Tables, u: Tables, touches: seq<seq<Touch>>, batch: seq<Event>, timeout: int)
    requires Inv(t, timeout) && FailedAll(t, u, touches, batch, timeout)
    ensures Inv(u, timeout) && u.log == t.log + Concat(touches) && u.events == t.events
    decreases |touches|
  {
    if touches == [] {
      assert t.log + [] == t.log;
    } else {
      var mid :| FailedAll(t, mid, Front(touches), batch, timeout) && FailedOn(mid, u, Last(touches), batch, timeout);
      OutageKeeps(t, mid, Front(touches), batch, timeout);
      FailedOnKeeps(mid, u, Last(touches), batch, timeout);
      Associative(t.log, Concat(Front(touches)), Last(touches));
    }
  }

  lemma {:induction false} FailedOnKeeps(t: Tables, u: Tables, touches: seq<Touch>, batch: seq<Event>, timeout: int)
    requires Inv(t, timeout) && FailedOn(t, u, touches, batch, timeout)
    ensures Inv(u, timeout) && u.log == t.log + touches && u.events == t.events
  {
    var n :| 0 <= n <= |batch| && Saves(t, u, touches, batch[..n], timeout, false);
    SaveKeepsInv(t, u, touches, batch[..n], timeout, false);
  }

  /** The touches are of these events only, and the first is of the first. */
  ghost predicate FromTheFirst(touches: seq<Touch>, mine: seq<Event>) {
    && (touches != [] ==> mine != [] && touches[0].event == mine[0])
    && forall i | 0 <= i < |touches| :: touches[i].event in mine
  }

  lemma {:induction false} FromTheFirstConcat(a: seq<Touch>, b: seq<Touch>, mine: seq<Event>)
    requires FromTheFirst(a, mine) && FromTheFirst(b, mine)
    ensures FromTheFirst(a + b, mine)
  {
  }

  lemma {:induction false} ServedFromTheFirst(touches: seq<Touch>, batch: seq<Event>, n: nat, v: string)
    requires n <= |batch| && Serves(touches, batch[..n])
    ensures FromTheFirst(TouchesOf(touches, v), EventsOf(batch, v))
  {
    var served, rest := batch[..|touches|], batch[|touches|..];
    TouchesServeEvents(touches, served, v);
    EventsOfConcat(served, rest, v);
    assert served + rest == batch;
  }

  lemma {:induction false} FailedFromTheFirst(t: Tables, u: Tables, touches: seq<Touch>, batch: seq<Event>, timeout: int, v: string)
    requires FailedOn(t, u, touches, batch, timeout)
    ensures FromTheFirst(TouchesOf(touches, v), EventsOf(batch, v))
  {
    var n :| 0 <= n <= |batch| && Saves(t, u, touches, batch[..n], timeout, false);
    ServedFromTheFirst(touches, batch, n, v);
  }

  lemma {:induction false} OutageFromTheFirst(t: Tables, u: Tables, touches: seq<seq<Touch>>, batch: seq<Event>, timeout: int, v: string)
    requires FailedAll(t, u, touches, batch, timeout)
    ensures FromTheFirst(TouchesOf(Concat(touches), v), EventsOf(batch, v))
    decreases |touches|
  {
    hide FailedOn;
    if touches != [] {
      var mid :| FailedAll(t, mid, Front(touches), batch, timeout) && FailedOn(mid, u, Last(touches), batch, timeout);
      OutageFromTheFirst(t, mid, Front(touches), batch, timeout, v);
      FailedFromTheFirst(mid, u, Last(touches), batch, timeout, v);
      TouchesOfConcat(Concat(Front(touches)), Last(touches), v);
      FromTheFirstConcat(TouchesOf(Concat(Front(touches)), v), TouchesOf(Last(touches), v), EventsOf(batch, v));
    }
  }

  /** `run` opens a session for a visitor with timeline `was` and stays in it. */
  ghost predicate OneMoreSession(was: seq<Touch>, run: seq<Touch>, timeout: int) {
    && run != [] && Unbroken(run, timeout)
    && (was != [] ==> run[0].at - Last(was).at >= timeout)
  }

  lemma {:induction false} OneMoreRow(was: seq<Touch>, run: seq<Touch>, timeout: int)
    requires OneMoreSession(was, run, timeout)
    ensures RowsFor(was + run, timeout) == RowsFor(was, timeout) + [RowOf(run)]
  {
    hide Runs, RowOf;
    RunsSnoc(was, run[0], timeout);
    var begun := was + [run[0]];
    assert [Last(begun)] + run[1..] == run && begun + run[1..] == was + run;
    RunsExtend(begun, run[1..], timeout);
    assert Runs(was + run, timeout) == Runs(was, timeout) + [run];
  }

  /** `p` are the touches of a visitor's events `mine` by failed saves, `r` those by the successful one. */
  lemma {:induction false} BounceOfRetried(p: seq<Touch>, r: seq<Touch>, mine: seq<Event>)
    requires mine != [] && FromTheFirst(p, mine)
    requires |r| == |mine| && forall i | 0 <= i < |r| :: r[i].event == mine[i]
    ensures RowOf(p + r).bounce <==> PassiveFrom(mine, 1) && (p != [] ==> Passive(mine[0].name))
  {
    if p == [] {
      assert p + r == r;
      BounceOfServed(r, mine);
    } else {
      BounceOfConcat(p, r);
      if AllPassive(r) {
        forall i | 0 <= i < |mine| ensures Passive(mine[i].name) {
          assert Passive(r[i].event.name);
        }
      }
      if PassiveFrom(mine, 1) && Passive(mine[0].name) {
        assert forall i | 0 <= i < |mine| :: Passive(mine[i].name);
      }
    }
  }

  lemma {:induction false} BounceOfServed(r: seq<Touch>, mine: seq<Event>)
    requires r != [] && |r| == |mine| && forall i | 0 <= i < |r| :: r[i].event == mine[i]
    ensures RowOf(r).bounce <==> PassiveFrom(mine, 1)
  {
    if RowOf(r).bounce {
      forall i | 1 <= i < |mine| ensures Passive(mine[i].name) {
        assert Passive(r[i].event.name);
      }
    }
  }

  /** `now` are the rows of a visitor for whom a session was opened by events `mine`, `was` those
      before; `again` says whether a failed save had touched the visitor. */
  ghost predicate BounceLaw(was: seq<SessionRow>, now: seq<SessionRow>, mine: seq<Event>, again: bool) {
    && mine != [] && now != [] && Front(now) == was
    && (Last(now).bounce <==> PassiveFrom(mine, 1) && (again ==> Passive(mine[0].name)))
  }

  /** What any outage followed by a success makes of a visitor for whom it opens a session: one more
      row, a bounce exactly when all events but the first are passive and, if a failed save had
      touched the visitor, the first one is passive too. */
  lemma {:induction false} RetryBounceExact(t: Tables, failed: Tables, u: Tables, touches: seq<seq<Touch>>, second: seq<Touch>,
                                            batch: seq<Event>, timeout: int, v: string)
    requires Inv(t, timeout) && FailedAll(t, failed, touches, batch, timeout)
    requires Saves(failed, u, second, batch, timeout, true) && EventsOf(batch, v) != []
    requires OneMoreSession(TouchesOf(t.log, v), TouchesOf(Concat(touches), v) + TouchesOf(second, v), timeout)
    ensures BounceLaw(RowsOf(t.sessions, v), RowsOf(u.sessions, v), EventsOf(batch, v), TouchesOf(Concat(touches), v) != [])
  {
    hide Inv, Saves, Refines;
    var p, r := TouchesOf(Concat(touches), v), TouchesOf(second, v);
    InvRefines(t, timeout);
    SavedLog(failed, u, second, batch, timeout, true);
    OutageKeeps(t, failed, touches, batch, timeout);
    SaveKeepsSessions(failed, u, second, batch, timeout, true);
    RetriedRows(t, u, Concat(touches), second, timeout, v);
    OutageFromTheFirst(t, failed, touches, batch, timeout, v);
    TouchesServeEvents(second, batch, v);
    BounceOfRetried(p, r, EventsOf(batch, v));
  }

  lemma {:induction false} RetriedRows(t: Tables, u: Tables, first: seq<Touch>, second: seq<Touch>, timeout: int, v: string)
    requires Refines(t.sessions, t.log, timeout) && Refines(u.sessions, (t.log + first) + second, timeout)
    requires OneMoreSession(TouchesOf(t.log, v), TouchesOf(first, v) + TouchesOf(second, v), timeout)
    ensures RowsOf(u.sessions, v) == RowsOf(t.sessions, v) + [RowOf(TouchesOf(first, v) + TouchesOf(second, v))]
  {
    assert VisitorAgrees(t.sessions, t.log, timeout, v);
    assert VisitorAgrees(u.sessions, (t.log + first) + second, timeout, v);
    TouchesOfConcat(t.log, first, v);
    TouchesOfConcat(t.log + first, second, v);
    Associative(TouchesOf(t.log, v), TouchesOf(first, v), TouchesOf(second, v));
    OneMoreRow(TouchesOf(t.log, v), TouchesOf(first, v) + TouchesOf(second, v), timeout);
  }

  /** Without an outage the first event does not count, so a retry ends a bounce exactly when the
      first event is not passive and a failed save has touched it. */
  lemma {:induction false} FirstAttemptBounce(t: Tables, u: Tables, touches: seq<Touch>, batch: seq<Event>, timeout: int, v: string)
    requires Inv(t, timeout) && Saves(t, u, touches, batch, timeout, true) && EventsOf(batch, v) != []
    requires OneMoreSession(TouchesOf(t.log, v), TouchesOf(touches, v), timeout)
    ensures var rows := RowsOf(u.sessions, v);
            && rows != [] && Front(rows) == RowsOf(t.sessions, v)
            && (Last(rows).bounce <==> PassiveFrom(EventsOf(batch, v), 1))
  {
    hide Saves, Inv;
    assert TouchesOf(Concat([]), v) + TouchesOf(touches, v) == TouchesOf(touches, v);
    RetryBounceExact(t, t, u, [], touches, batch, timeout, v);
  }

  // ---------- domain agreement ----------

  /** A session has its visitor and its domain id from a touch. */
  lemma {:induction false} SessionOfTouch(sessions: seq<SessionRow>, log: seq<Touch>, timeout: int, j: int) returns (k: nat)
    requires Refines(sessions, log, timeout) && 0 <= j < |sessions|
    ensures k < |log| && log[k].event.visitorId == sessions[j].visitorId && log[k].domainId == sessions[j].domainId
  {
    var v := sessions[j].visitorId;
    RowsOfMembers(sessions, v);
    assert sessions[j] in RowsOf(sessions, v);
    var p :| 0 <= p < |RowsOf(sessions, v)| && RowsOf(sessions, v)[p] == sessions[j];
    assert VisitorAgrees(sessions, log, timeout, v);
    k := FirstOfRun(log, timeout, v, p);
  }

  lemma {:induction false} FirstOfRun(log: seq<Touch>, timeout: int, v: string, p: int) returns (k: nat)
    requires 0 <= p < |Runs(TouchesOf(log, v), timeout)|
    ensures k < |log| && log[k] == Runs(TouchesOf(log, v), timeout)[p][0]
  {
    RunMembers(TouchesOf(log, v), timeout);
    TouchesOfMembers(log, v);
    var first := Runs(TouchesOf(log, v), timeout)[p][0];
    assert first in TouchesOf(log, v);
    k :| 0 <= k < |log| && log[k] == first;
  }

  /** An event row has its visitor and its domain id from a touch. */
  lemma {:induction false} RowOfTouch(row: EventRow, log: seq<Touch>) returns (k: nat)
    requires FromTouch(row, log)
    ensures k < |log| && log[k].event.visitorId == row.visitorId && log[k].domainId == row.domainId
  {
    k :| 0 <= k < |log| && RowOfEvent(row, log[k].event) && row.domainId == log[k].domainId;
  }

  lemma {:induction false} OwnSession(row: EventRow, sessions: seq<SessionRow>, log: seq<Touch>, timeout: int, j: int)
    requires Refines(sessions, log, timeout) && HasSession(row, sessions)
    requires 0 <= j < |sessions| && row.sessionId == sessions[j].id
    ensures row.visitorId == sessions[j].visitorId
  {
  }

  /** In this log the visitor id of an event determines its domain. */
  ghost predicate OwnDomains(log: seq<Touch>, owner: string -> string) {
    forall k | 0 <= k < |log| :: log[k].event.domain == owner(log[k].event.visitorId)
  }

  /** If visitor ids determine domains, every event row has the domain of its session, although
      `GetSession` never looks at the domain. */
  lemma {:induction false} DomainsAgree(t: Tables, timeout: int, owner: string -> string, i: int, j: int)
    requires Inv(t, timeout) && 0 <= i < |t.events| && 0 <= j < |t.sessions|
    requires OwnDomains(t.log, owner)
    requires t.events[i].sessionId == t.sessions[j].id
    ensures t.events[i].visitorId == t.sessions[j].visitorId && t.events[i].domainId == t.sessions[j].domainId
  {
    hide Refines, FromTouch, HasSession;
    OwnSession(t.events[i], t.sessions, t.log, timeout, j);
    var k := RowOfTouch(t.events[i], t.log);
    var h := SessionOfTouch(t.sessions, t.log, timeout, j);
  }

  // ---------- independence of batch cuts ----------

  /** The same events at the same times; ids may differ. */
  ghost predicate SameTouches(a: seq<Touch>, b: seq<Touch>) {
    && |a| == |b|
    && forall k | 0 <= k < |a| :: a[k].event == b[k].event && a[k].at == b[k].at
  }

  lemma {:induction false} SameTouchesBack(a: seq<Touch>, b: seq<Touch>)
    requires SameTouches(a, b)
    ensures SameTouches(b, a) && |a| == |b|
  {
  }

  function Anonymous(row: SessionRow): SessionRow {
    row.(id := 0, domainId := 0)
  }

  ghost predicate SameUpToIds(a: seq<SessionRow>, b: seq<SessionRow>) {
    |a| == |b| && forall p | 0 <= p < |a| :: Anonymous(a[p]) == Anonymous(b[p])
  }

  lemma {:induction false} SameTouchesOf(a: seq<Touch>, b: seq<Touch>, v: string)
    requires SameTouches(a, b)
    ensures SameTouches(TouchesOf(a, v), TouchesOf(b, v))
  {
    if a != [] {
      SameTouchesOf(Front(a), Front(b), v);
    }
  }

  ghost predicate SameRunsOf(a: seq<seq<Touch>>, b: seq<seq<Touch>>) {
    |a| == |b| && forall p | 0 <= p < |a| :: SameTouches(a[p], b[p])
  }

  lemma {:induction false} SamePrepend(t: Touch, t': Touch, a: seq<seq<Touch>>, b: seq<seq<Touch>>, cut: bool)
    requires t.event == t'.event && t.at == t'.at && SameRunsOf(a, b) && (!cut ==> a != [])
    ensures SameRunsOf(Prepend(t, a, cut), Prepend(t', b, cut))
  {
    var x, y := Prepend(t, a, cut), Prepend(t', b, cut);
    forall p | 0 <= p < |x| ensures SameTouches(x[p], y[p]) {
      if cut && p > 0 {
        assert x[p] == a[p - 1] && y[p] == b[p - 1];
      } else if p > 0 {
        assert x[p] == a[p] && y[p] == b[p];
      }
    }
  }

  lemma {:induction false} SameRuns(a: seq<Touch>, b: seq<Touch>, timeout: int)
    requires SameTouches(a, b)
    ensures SameRunsOf(Runs(a, timeout), Runs(b, timeout))
  {
    if a != [] {
      SameRuns(a[1..], b[1..], timeout);
      SamePrepend(a[0], b[0], Runs(a[1..], timeout), Runs(b[1..], timeout), |a| == 1 || a[1].at - a[0].at >= timeout);
    }
  }

  lemma {:induction false} SameRow(a: seq<Touch>, b: seq<Touch>)
    requires SameTouches(a, b) && a != []
    ensures Anonymous(RowOf(a)) == Anonymous(RowOf(b))
  {
    assert RowOf(a).bounce <==> RowOf(b).bounce;
  }

  /** The log alone decides the sessions table, up to the choice of ids. */
  lemma {:induction false} LogDecidesSessions(s: seq<SessionRow>, log: seq<Touch>, s': seq<SessionRow>, log': seq<Touch>,
                                              timeout: int, v: string)
    requires Refines(s, log, timeout) && Refines(s', log', timeout) && SameTouches(log, log')
    ensures SameUpToIds(RowsOf(s, v), RowsOf(s', v))
  {
    assert VisitorAgrees(s, log, timeout, v) && VisitorAgrees(s', log', timeout, v);
    SameTouchesOf(log, log', v);
    var tl, tl' := TouchesOf(log, v), TouchesOf(log', v);
    SameRuns(tl, tl', timeout);
    forall p | 0 <= p < |RowsOf(s, v)| ensures Anonymous(RowsOf(s, v)[p]) == Anonymous(RowsOf(s', v)[p]) {
      SameRow(Runs(tl, timeout)[p], Runs(tl', timeout)[p]);
    }
  }

  /** The stored row belongs to its visitor's p-th session. */
  ghost predicate InSession(row: EventRow, sessions: seq<SessionRow>, p: int) {
    0 <= p < |RowsOf(sessions, row.visitorId)| && RowsOf(sessions, row.visitorId)[p].id == row.sessionId
  }

  ghost predicate SameContent(a: EventRow, b: EventRow) {
    a.(domainId := 0, sessionId := 0) == b.(domainId := 0, sessionId := 0)
  }

  /** Where the batch of event `k` ends. */
  function BatchEnd<T>(parts: seq<seq<T>>, k: nat): (end: nat)
    requires k < |Concat(parts)|
    ensures k < end <= |Concat(parts)|
  {
    if k < |Concat(Front(parts))| then BatchEnd(Front(parts), k) else |Concat(parts)|
  }

  /** Successful saves of the given batches, one after the other. */
  ghost predicate SavesAll(t: Tables, u: Tables, batches: seq<seq<Event>>, touches: seq<seq<Touch>>, timeout: int)
    decreases |batches|
  {
    && |batches| == |touches|
    && if batches == [] then u == t
       else exists mid ::
         && SavesAll(t, mid, Front(batches), Front(touches), timeout)
         && Saves(mid, u, Last(touches), Last(batches), timeout, true)
  }

  lemma {:induction false} SavesAllSnoc(t: Tables, mid: Tables, u: Tables, batches: seq<seq<Event>>, touches: seq<seq<Touch>>,
                                        batch: seq<Event>, more: seq<Touch>, timeout: int)
    requires SavesAll(t, mid, batches, touches, timeout) && Saves(mid, u, more, batch, timeout, true)
    ensures SavesAll(t, u, batches + [batch], touches + [more], timeout)
    ensures Concat(batches + [batch]) == Concat(batches) + batch
  {
    hide Saves;
    assert Front(batches + [batch]) == batches && Front(touches + [more]) == touches;
  }

  lemma {:induction false} DomainsOfConcat(a: seq<Event>, b: seq<Event>)
    ensures DomainsOf(a + b) == DomainsOf(a) + DomainsOf(b)
  {
    var both := a + b;
    forall d | d in DomainsOf(a) + DomainsOf(b) ensures d in DomainsOf(both) {
      if d in DomainsOf(a) {
        var i :| 0 <= i < |a| && a[i].domain == d;
        assert both[i] == a[i];
      } else {
        var i :| 0 <= i < |b| && b[i].domain == d;
        assert both[|a| + i] == b[i];
      }
    }
  }

  /** The row is the event's own, and names the last session its visitor has touched. */
  ghost predicate NamesLast(row: EventRow, e: Event, domains: map<string, nat>, log: seq<Touch>) {
    && RowOfEvent(row, e) && e.domain in domains && row.domainId == domains[e.domain]
    && TouchesOf(log, e.visitorId) != [] && row.sessionId == Last(TouchesOf(log, e.visitorId)).session
  }

  ghost predicate RowNamesLast(t: Tables, u: Tables, batch: seq<Event>, k: int)
    requires 0 <= k < |batch| && |u.events| == |t.events| + |batch|
  {
    NamesLast(u.events[|t.events| + k], batch[k], u.domains, u.log)
  }

  /** What a successful save adds. */
  ghost predicate Adds(t: Tables, u: Tables, touches: seq<Touch>, batch: seq<Event>) {
    && u.log == t.log + touches && Serves(touches, batch) && |touches| == |batch|
    && u.domains.Keys == t.domains.Keys + DomainsOf(batch) && (forall d | d in t.domains :: u.domains[d] == t.domains[d])
    && |u.events| == |t.events| + |batch| && t.events <= u.events
  }

  lemma {:induction false} SavedRow(t: Tables, u: Tables, touches: seq<Touch>, batch: seq<Event>, timeout: int, k: nat)
    requires Saves(t, u, touches, batch, timeout, true) && k < |batch|
    ensures RowNamesLast(t, u, batch, k)
  {
    hide Injective, Grows, Replays, Ordered, DomainsFit, LastSessions, TouchesOf;
    assert touches[k].event == batch[k];
    EntryIsLastTouch(t.log, touches, k);
    assert batch[k].domain in DomainsOf(batch);
  }

  lemma {:induction false} SaveAdds(t: Tables, u: Tables, touches: seq<Touch>, batch: seq<Event>, timeout: int)
    requires Saves(t, u, touches, batch, timeout, true)
    ensures Adds(t, u, touches, batch)
  {
  }

  lemma {:induction false} Unroll(t: Tables, u: Tables, batches: seq<seq<Event>>, touches: seq<seq<Touch>>, timeout: int)
    returns (mid: Tables)
    requires SavesAll(t, u, batches, touches, timeout) && batches != []
    ensures SavesAll(t, mid, Front(batches), Front(touches), timeout)
    ensures Adds(mid, u, Last(touches), Last(batches))
    ensures forall k | 0 <= k < |Last(batches)| :: RowNamesLast(mid, u, Last(batches), k)
  {
    mid :| SavesAll(t, mid, Front(batches), Front(touches), timeout)
           && Saves(mid, u, Last(touches), Last(batches), timeout, true);
    SaveAdds(mid, u, Last(touches), Last(batches), timeout);
    forall k | 0 <= k < |Last(batches)| ensures RowNamesLast(mid, u, Last(batches), k) {
      SavedRow(mid, u, Last(touches), Last(batches), timeout, k);
    }
  }

  lemma {:induction false} CutsKeepInv(t: Tables, u: Tables, batches: seq<seq<Event>>, touches: seq<seq<Touch>>, timeout: int)
    requires Inv(t, timeout) && SavesAll(t, u, batches, touches, timeout)
    ensures Inv(u, timeout)
    decreases |batches|
  {
    if batches != [] {
      var mid :| SavesAll(t, mid, Front(batches), Front(touches), timeout)
                 && Saves(mid, u, Last(touches), Last(batches), timeout, true);
      CutsKeepInv(t, mid, Front(batches), Front(touches), timeout);
      SaveKeepsInv(mid, u, Last(touches), Last(batches), timeout, true);
    }
  }

  lemma {:induction false} ServesConcat(x: seq<Touch>, y: seq<Touch>, a: seq<Event>, b: seq<Event>)
    requires Serves(x, a) && |x| == |a| && Serves(y, b)
    ensures Serves(x + y, a + b)
  {
  }

  /** However the events are cut into batches, they are all served, in order, and stored. */
  lemma {:induction false} CutsAdd(t: Tables, u: Tables, batches: seq<seq<Event>>, touches: seq<seq<Touch>>, timeout: int)
    requires SavesAll(t, u, batches, touches, timeout)
    ensures Serves(Concat(touches), Concat(batches)) && |Concat(touches)| == |Concat(batches)|
    ensures |u.events| == |t.events| + |Concat(batches)|
    decreases |batches|
  {
    if batches != [] {
      var mid := Unroll(t, u, batches, touches, timeout);
      CutsAdd(t, mid, Front(batches), Front(touches), timeout);
      ServesConcat(Concat(Front(touches)), Last(touches), Concat(Front(batches)), Last(batches));
    }
  }

  lemma {:induction false} CutsLog(t: Tables, u: Tables, batches: seq<seq<Event>>, touches: seq<seq<Touch>>, timeout: int)
    requires SavesAll(t, u, batches, touches, timeout)
    ensures u.log == t.log + Concat(touches)
    decreases |batches|
  {
    if batches == [] {
      assert t.log + [] == t.log;
    } else {
      var mid := Unroll(t, u, batches, touches, timeout);
      CutsLog(t, mid, Front(batches), Front(touches), timeout);
      Associative(t.log, Concat(Front(touches)), Last(touches));
    }
  }

  /** However the events are cut into batches, the domains added are the same. */
  lemma {:induction false} CutsAddDomains(t: Tables, u: Tables, batches: seq<seq<Event>>, touches: seq<seq<Touch>>, timeout: int)
    requires SavesAll(t, u, batches, touches, timeout)
    ensures u.domains.Keys == t.domains.Keys + DomainsOf(Concat(batches))
    decreases |batches|
  {
    if batches != [] {
      var mid := Unroll(t, u, batches, touches, timeout);
      CutsAddDomains(t, mid, Front(batches), Front(touches), timeout);
      DomainsOfConcat(Concat(Front(batches)), Last(batches));
    }
  }

  lemma {:induction false} SameTouchesAfter(log: seq<Touch>, x: seq<Touch>, y: seq<Touch>)
    requires SameTouches(x, y)
    ensures SameTouches(log + x, log + y)
  {
  }

  /** Independence of batch cuts: two ways of cutting the same events, touched at the same times,
      leave the same sessions but for ids, and the same domain names. */
  lemma {:induction false} CutsAgree(t: Tables, u: Tables, w: Tables, a: seq<seq<Event>>, b: seq<seq<Event>>,
                                     x: seq<seq<Touch>>, y: seq<seq<Touch>>, timeout: int, v: string)
    requires Inv(t, timeout) && SavesAll(t, u, a, x, timeout) && SavesAll(t, w, b, y, timeout)
    requires Concat(a) == Concat(b) && SameTouches(Concat(x), Concat(y))
    ensures SameUpToIds(RowsOf(u.sessions, v), RowsOf(w.sessions, v))
    ensures u.domains.Keys == w.domains.Keys
  {
    CutsKeepInv(t, u, a, x, timeout);
    CutsKeepInv(t, w, b, y, timeout);
    CutsLog(t, u, a, x, timeout);
    CutsLog(t, w, b, y, timeout);
    CutsAddDomains(t, u, a, x, timeout);
    CutsAddDomains(t, w, b, y, timeout);
    SameTouchesAfter(t.log, Concat(x), Concat(y));
    LogDecidesSessions(u.sessions, u.log, w.sessions, w.log, timeout, v);
  }

  /** The session position of the last touch of `log`, kept by whatever is touched later. */
  lemma {:induction false} PositionKept(log: seq<Touch>, more: seq<Touch>, sessions: seq<SessionRow>, timeout: int, row: EventRow)
    requires Refines(sessions, log + more, timeout)
    requires TouchesOf(log, row.visitorId) != [] && row.sessionId == Last(TouchesOf(log, row.visitorId)).session
    ensures InSession(row, sessions, |Runs(TouchesOf(log, row.visitorId), timeout)| - 1)
  {
    var v := row.visitorId;
    TouchesOfConcat(log, more, v);
    TouchNamesRow(sessions, log + more, v, TouchesOf(log, v), TouchesOf(more, v), timeout);
  }

  lemma {:induction false} PrefixOfConcat<T>(parts: seq<seq<T>>, end: nat)
    requires parts != [] && end <= |Concat(Front(parts))|
    ensures end <= |Concat(parts)| && Concat(parts)[..end] == Concat(Front(parts))[..end]
  {
  }

  lemma {:induction false} NamesLastCarriesOver(row: EventRow, e: Event, domains: map<string, nat>, domains': map<string, nat>, log: seq<Touch>)
    requires NamesLast(row, e, domains, log) && domains.Keys <= domains'.Keys
    requires forall d | d in domains :: domains'[d] == domains[d]
    ensures NamesLast(row, e, domains', log)
  {
  }

  lemma {:induction false} CutRowNew(t: Tables, mid: Tables, u: Tables, batches: seq<seq<Event>>, touched: seq<Touch>, k: nat)
    requires batches != [] && |Concat(Front(batches))| <= k < |Concat(batches)| == |touched|
    requires |mid.events| == |t.events| + |Concat(Front(batches))| && |u.events| == |mid.events| + |Last(batches)|
    requires u.log == t.log + touched && RowNamesLast(mid, u, Last(batches), k - |Concat(Front(batches))|)
    ensures NamesLast(u.events[|t.events| + k], Concat(batches)[k], u.domains, t.log + touched[..BatchEnd(batches, k)])
  {
    assert touched[..|touched|] == touched;
  }

  /** The session that the row of event `k` is attributed to depends on the log up to the end of that
      event's batch and on nothing else. */
  lemma {:induction false} CutRow(t: Tables, u: Tables, batches: seq<seq<Event>>, touches: seq<seq<Touch>>, timeout: int, k: nat)
    requires SavesAll(t, u, batches, touches, timeout) && k < |Concat(batches)| == |Concat(touches)|
    requires |u.events| == |t.events| + |Concat(batches)|
    ensures NamesLast(u.events[|t.events| + k], Concat(batches)[k], u.domains,
                      t.log + Concat(touches)[..BatchEnd(batches, k)])
    decreases |batches|
  {
    var mid := Unroll(t, u, batches, touches, timeout);
    var done := |Concat(Front(batches))|;
    CutsAdd(t, mid, Front(batches), Front(touches), timeout);
    if k < done {
      CutRow(t, mid, Front(batches), Front(touches), timeout, k);
      PrefixOfConcat(touches, BatchEnd(batches, k));
      NamesLastCarriesOver(mid.events[|t.events| + k], Concat(batches)[k], mid.domains, u.domains,
                           t.log + Concat(touches)[..BatchEnd(batches, k)]);
    } else {
      CutsLog(t, u, batches, touches, timeout);
      CutRowNew(t, mid, u, batches, Concat(touches), k);
    }
  }

  /** Both rows are in their visitor's session number `p`, for some `p`. */
  ghost predicate SamePosition(row: EventRow, sessions: seq<SessionRow>, row': EventRow, sessions': seq<SessionRow>) {
    exists p :: InSession(row, sessions, p) && InSession(row', sessions', p)
  }

  /** Row `i` of both tables is the event's own, under the event's own domain. */
  ghost predicate SameRowOf(e: Event, t: Tables, u: Tables, i: int)
    requires 0 <= i < |t.events| && i < |u.events|
  {
    && SameContent(t.events[i], u.events[i]) && RowOfEvent(t.events[i], e)
    && e.domain in t.domains && t.events[i].domainId == t.domains[e.domain]
    && e.domain in u.domains && u.events[i].domainId == u.domains[e.domain]
  }

  lemma {:induction false} SameRowOfBack(e: Event, t: Tables, u: Tables, i: int)
    requires 0 <= i < |t.events| && i < |u.events| && SameRowOf(e, t, u, i)
    ensures SameRowOf(e, u, t, i)
  {
  }

  /** After `log`, `touched` was committed. Row `i` of both tables is in the same session of visitor
      `v`, counted from the visitor's first, exactly when `v` does not split between `m` and `n`. */
  ghost predicate SplitDecides(log: seq<Touch>, touched: seq<Touch>, m: nat, n: nat, v: string, t: Tables, u: Tables, i: int, timeout: int)
    requires 0 <= i < |t.events| && i < |u.events| && m <= n <= |touched|
  {
    var seen, later := TouchesOf(log + touched[..m], v), TouchesOf(touched[m..n], v);
    && seen != []
    && (SamePosition(t.events[i], t.sessions, u.events[i], u.sessions) <==> Unbroken([Last(seen)] + later, timeout))
  }

  /** Two cuts and the row of event `k`: content and domain name are the same, and so is the position
      of its session exactly when its visitor does not split between the two batch ends. */
  lemma {:induction false} CutsAgreeOnRow(t: Tables, u: Tables, w: Tables, a: seq<seq<Event>>, b: seq<seq<Event>>,
                                          x: seq<seq<Touch>>, y: seq<seq<Touch>>, timeout: int, k: nat)
    requires Inv(t, timeout) && SavesAll(t, u, a, x, timeout) && SavesAll(t, w, b, y, timeout)
    requires Concat(a) == Concat(b) && SameTouches(Concat(x), Concat(y)) && k < |Concat(a)|
    requires BatchEnd(a, k) <= BatchEnd(b, k)
    ensures |u.events| == |w.events| == |t.events| + |Concat(a)| == |t.events| + |Concat(y)|
    ensures SameRowOf(Concat(a)[k], u, w, |t.events| + k)
    ensures SplitDecides(t.log, Concat(y), BatchEnd(a, k), BatchEnd(b, k), Concat(a)[k].visitorId,
                         u, w, |t.events| + k, timeout)
  {
    hide Inv, SavesAll;
    CutsAdd(t, u, a, x, timeout);
    CutsAdd(t, w, b, y, timeout);
    CutsLog(t, u, a, x, timeout);
    CutsLog(t, w, b, y, timeout);
    CutRow(t, u, a, x, timeout, k);
    CutRow(t, w, b, y, timeout, k);
    CutsKeepInv(t, u, a, x, timeout);
    CutsKeepInv(t, w, b, y, timeout);
    InvRefines(u, timeout);
    InvRefines(w, timeout);
    Positions(t.log, Concat(x), Concat(y), BatchEnd(a, k), BatchEnd(b, k), u.sessions, w.sessions,
              u.events[|t.events| + k], w.events[|t.events| + k], timeout);
  }

  lemma {:induction false} InvRefines(t: Tables, timeout: int)
    requires Inv(t, timeout)
    ensures Refines(t.sessions, t.log, timeout)
  {
  }

  lemma {:induction false} Positions(log: seq<Touch>, x: seq<Touch>, y: seq<Touch>, i: nat, j: nat,
                                     sessions: seq<SessionRow>, sessions': seq<SessionRow>,
                                     row: EventRow, row': EventRow, timeout: int)
    requires SameTouches(x, y) && i <= j <= |x|
    requires Refines(sessions, log + x, timeout) && Refines(sessions', log + y, timeout)
    requires row.visitorId == row'.visitorId
    requires var seen := TouchesOf(log + x[..i], row.visitorId); seen != [] && row.sessionId == Last(seen).session
    requires var seen := TouchesOf(log + y[..j], row.visitorId); seen != [] && row'.sessionId == Last(seen).session
    ensures var v := row.visitorId;
            var seen, later := TouchesOf(log + y[..i], v), TouchesOf(y[i..j], v);
            && seen != []
            && (SamePosition(row, sessions, row', sessions') <==> Unbroken([Last(seen)] + later, timeout))
  {
    hide Runs, TouchesOf, RowsOf, Refines;
    var v := row.visitorId;
    var p := Position(log, x, i, sessions, timeout, row);
    var p' := Position(log, y, j, sessions', timeout, row');
    SameTouchesAfter(log, x[..i], y[..i]);
    SameTouchesOf(log + x[..i], log + y[..i], v);
    SameRuns(TouchesOf(log + x[..i], v), TouchesOf(log + y[..i], v), timeout);
    assert log + y[..j] == (log + y[..i]) + y[i..j];
    TouchesOfConcat(log + y[..i], y[i..j], v);
    RunsCount(TouchesOf(log + y[..i], v), TouchesOf(y[i..j], v), timeout);
    assert InSession(row, sessions, p) && InSession(row', sessions', p');
  }

  /** The one position of a row's session. */
  lemma {:induction false} Position(log: seq<Touch>, x: seq<Touch>, i: nat, sessions: seq<SessionRow>, timeout: int, row: EventRow)
    returns (p: int)
    requires i <= |x| && Refines(sessions, log + x, timeout)
    requires var seen := TouchesOf(log + x[..i], row.visitorId); seen != [] && row.sessionId == Last(seen).session
    ensures p == |Runs(TouchesOf(log + x[..i], row.visitorId), timeout)| - 1
    ensures forall q :: InSession(row, sessions, q) <==> q == p
  {
    assert log + x == (log + x[..i]) + x[i..];
    PositionKept(log + x[..i], x[i..], sessions, timeout, row);
    RowsOfAscending(sessions, row.visitorId);
    p := |Runs(TouchesOf(log + x[..i], row.visitorId), timeout)| - 1;
  }
}
