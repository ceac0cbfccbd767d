/** Two concrete stories from an empty database, with the default timeout of half an hour: what a
    failed COPY does to a bounce, and what a pause inside a batch does to the rows before it. */
module Witnesses {
  import opened Events
  import opened Timeline
  import opened Sessions
  import opened CopyFrom
  import opened Tables

  const SECOND: int := 1_000_000
  const HALF_HOUR: int := 30 * 60 * SECOND

  /** A page view of the one visitor on the one domain. */
  function Load(path: string): Event {
    Event("load", "https://shop.example" + path, "", 120, 40,
          Client(1920, 1080, 1.0, 24, "Europe/Berlin", "", "", "", "", ""), "de", "", "", "shop.example", path, "5f3c",
          Agent("Firefox", "140", "Linux", "", "desktop", "desktop", false), Place(0.0, 0.0, "DE", "", ""))
  }

  const DOMAINS: map<string, nat> := map["shop.example" := 1]

  /** The touch of a page view `at` microseconds after the start. */
  function Viewed(path: string, at: int, session: nat): Touch {
    Touch(Load(path), 1, at, session)
  }

  /** The session a page view opens. */
  function Opened(id: nat, path: string, at: int): SessionRow {
    Inserted(id, Load(path), 1, at)
  }

  lemma {:induction false} ReplaysNothing(sessions: seq<SessionRow>, timeout: int)
    ensures Replays(sessions, sessions, [], timeout)
  {
  }

  lemma {:induction false} ReplaysOne(before: seq<SessionRow>, after: seq<SessionRow>, t: Touch, timeout: int)
    requires Touched(before, after, t, timeout)
    ensures Replays(before, after, [t], timeout)
  {
    ReplaysNothing(before, timeout);
    ReplaysSnoc(before, before, after, [], t, timeout);
    assert [] + [t] == [t];
  }

  lemma {:induction false} OneDomain(batch: seq<Event>)
    requires batch != [] && forall i | 0 <= i < |batch| :: batch[i].domain == "shop.example"
    ensures DomainsOf(batch) == DOMAINS.Keys && Injective(DOMAINS)
    ensures Grows(map[], DOMAINS, DomainsOf(batch)) && Grows(DOMAINS, DOMAINS, DomainsOf(batch))
  {
    assert batch[0].domain in DomainsOf(batch);
  }

  // ---------- a bounce lost to a retry ----------

  /** The session commits, the COPY fails. */
  const COPY_FAILED: Tables := Tables(DOMAINS, [Opened(1, "/", 0)], [], 0, [Viewed("/", 0, 1)])

  const ROW: EventRow := EventRow(1, 1, "5f3c", "load", "/", "", 120, 40)

  /** The retry a second later gets through. */
  const RETRIED: Tables := Tables(
    DOMAINS, [Updated(Opened(1, "/", 0), "/", "load", SECOND)], [ROW], SECOND, [Viewed("/", 0, 1), Viewed("/", SECOND, 1)])

  /** The same page view saved at the first attempt. */
  const SAVED_AT_ONCE: Tables := Tables(DOMAINS, [Opened(1, "/", 0)], [ROW], 0, [Viewed("/", 0, 1)])

  lemma {:induction false} FailedAttempt()
    ensures Saves(EMPTY, COPY_FAILED, [Viewed("/", 0, 1)], [Load("/")], HALF_HOUR, false)
  {
    hide Injective, Grows;
    OneDomain([Load("/")]);
    ReplaysOne([], COPY_FAILED.sessions, Viewed("/", 0, 1), HALF_HOUR);
  }

  lemma {:induction false} FirstAttempt()
    ensures Saves(EMPTY, SAVED_AT_ONCE, [Viewed("/", 0, 1)], [Load("/")], HALF_HOUR, true)
  {
    hide Injective, Grows;
    OneDomain([Load("/")]);
    ReplaysOne([], SAVED_AT_ONCE.sessions, Viewed("/", 0, 1), HALF_HOUR);
  }

  lemma {:induction false} SecondAttempt()
    ensures Saves(COPY_FAILED, RETRIED, [Viewed("/", SECOND, 1)], [Load("/")], HALF_HOUR, true)
  {
    hide Injective, Grows;
    OneDomain([Load("/")]);
    assert UpdatesAt(COPY_FAILED.sessions, RETRIED.sessions, Viewed("/", SECOND, 1), HALF_HOUR, 0);
    ReplaysOne(COPY_FAILED.sessions, RETRIED.sessions, Viewed("/", SECOND, 1), HALF_HOUR);
  }

  /** One page view, and one only: after a failed COPY and a retry its session is no bounce, after a
      save that gets through at once it is. */
  lemma {:induction false} RetryEndsBounce()
    ensures Saved(EMPTY, COPY_FAILED, [Load("/")], HALF_HOUR, false)
    ensures Saved(COPY_FAILED, RETRIED, [Load("/")], HALF_HOUR, true) && !RETRIED.sessions[0].bounce
    ensures Saved(EMPTY, SAVED_AT_ONCE, [Load("/")], HALF_HOUR, true) && SAVED_AT_ONCE.sessions[0].bounce
  {
    hide Saves;
    FailedAttempt();
    FirstAttempt();
    SecondAttempt();
  }

  // ---------- a row moved to a later session ----------

  const TWO_VISITS: seq<Touch> := [Viewed("/a", 0, 1), Viewed("/b", HALF_HOUR, 2)]

  const BOTH_SAVED: Tables := Tables(
    DOMAINS, [Opened(1, "/a", 0), Opened(2, "/b", HALF_HOUR)],
    [EventRow(1, 2, "5f3c", "load", "/a", "", 120, 40), EventRow(1, 2, "5f3c", "load", "/b", "", 120, 40)],
    HALF_HOUR, TWO_VISITS)

  lemma {:induction false} TwoVisitsReplay()
    ensures Replays([], BOTH_SAVED.sessions, TWO_VISITS, HALF_HOUR)
  {
    var one := [Opened(1, "/a", 0)];
    ReplaysOne([], one, TWO_VISITS[0], HALF_HOUR);
    ReplaysSnoc([], one, BOTH_SAVED.sessions, [TWO_VISITS[0]], TWO_VISITS[1], HALF_HOUR);
    assert [TWO_VISITS[0]] + [TWO_VISITS[1]] == TWO_VISITS;
  }

  /** Two page views half an hour apart in one batch: the first opened session 1, yet its row is
      stored under session 2. */
  lemma {:induction false} RowMovesToLaterSession()
    ensures Saves(EMPTY, BOTH_SAVED, TWO_VISITS, [Load("/a"), Load("/b")], HALF_HOUR, true)
    ensures TWO_VISITS[0].session == 1 && BOTH_SAVED.events[0].sessionId == 2
  {
    hide Injective, Grows, Replays;
    OneDomain([Load("/a"), Load("/b")]);
    TwoVisitsReplay();
    assert Front(TWO_VISITS) == [TWO_VISITS[0]];
  }
}
