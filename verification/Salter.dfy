/** picolytics/salter.go: the cached daily salt of one instance and its refresh transaction, over
    the one-row salt table. Times are microseconds on one clock that never runs backwards. */
module Salter {
  import opened Wrappers

  const DAY: int := 24 * 60 * 60 * 1_000_000
  /** Go's zero time, the first of January of the year 1. */
  const ZERO_TIME: int := -62_135_596_800 * 1_000_000

  datatype SaltRow = SaltRow(salt: string, createdAt: int)

  /** What `getSalt` returns. */
  datatype Answer = Answer(salt: string, ok: bool)

  /** The instance's cache, the table, the clock, whether a call has succeeded yet, the transactions
      that were begun and neither committed nor rolled back, and how often `UpdateSalt` has failed. */
  datatype Salted = Salted(
    cache: SaltRow, row: Option<SaltRow>, clock: int, answered: bool, leaked: nat, updateFaults: nat)

  /** The `IF` of `UpdateSalt`: no row, or a row strictly older than the transaction. */
  predicate Outdated(row: Option<SaltRow>, now: int) {
    row.None? || now - row.value.createdAt > 0
  }

  function Rotated(row: Option<SaltRow>, now: int, uuid: string): SaltRow {
    if Outdated(row, now) then SaltRow(uuid, now) else row.value
  }

  predicate Expired(cache: SaltRow, now: int) {
    cache.createdAt < now - DAY
  }

  // ---------- one call ----------

  /** A call that looks at its cache at time `t`; `uuid` is what `gen_random_uuid()` would answer. */
  ghost predicate Called(s: Salted, u: Salted, t: int, uuid: string, a: Answer) {
    && s.clock <= t <= u.clock
    && if !Expired(s.cache, t) then a == Answer(s.cache.salt, true) && u == s.(clock := t)
       else Refreshed(s, u, uuid, a) || Refused(s, u, a)
  }

  ghost predicate Refreshed(s: Salted, u: Salted, uuid: string, a: Answer) {
    var row := Rotated(s.row, u.clock, uuid);
    && u == Salted(row, Some(row), u.clock, true, s.leaked, s.updateFaults)
    && a == Answer(row.salt, true)
  }

  /** An error: no salt is returned, not even the old one, and cache and table stay as they are. The
      transaction is left open if `UpdateSalt` failed, and only then. */
  ghost predicate Refused(s: Salted, u: Salted, a: Answer) {
    && a == Answer("", false)
    && u == s.(clock := u.clock, leaked := u.leaked, updateFaults := u.updateFaults)
    && s.updateFaults <= u.updateFaults <= s.updateFaults + 1
    && u.leaked - s.leaked == u.updateFaults - s.updateFaults
  }

  // ---------- the source's form ----------

  class SaltDb {
    var row: Option<SaltRow>
    var clock: int
    var open: nat                       // transactions begun and not yet ended
    var uncommitted: Option<SaltRow>    // the row as the current transaction sees it
    var faults: nat                     // calls that failed
    var updateFaults: nat               // those of `UpdateSalt` among them

    constructor (row: Option<SaltRow>, clock: int)
      ensures this.row == row && this.clock == clock && open == faults == updateFaults == 0
    {
      this.row, this.clock, uncommitted := row, clock, row;
      open, faults, updateFaults := 0, 0, 0;
    }

    method Fails() returns (fails: bool)
      modifies this`faults
      ensures faults == old(faults) + if fails then 1 else 0
    {
      fails := *;
      if fails {
        faults := faults + 1;
      }
    }

    method Tick() returns (now: int)
      modifies this`clock
      ensures old(clock) <= now == clock
    {
      var elapsed: int := *;
      if elapsed > 0 {
        clock := clock + elapsed;
      }
      now := clock;
    }

    method Begin() returns (ok: bool)
      modifies this`clock, this`open, this`uncommitted, this`faults
      ensures old(clock) <= clock && faults == old(faults) + if ok then 0 else 1
      ensures if ok then open == old(open) + 1 && uncommitted == row else open == old(open)
    {
      var fails := Fails();
      ok := !fails;
      if ok {
        var now := Tick();
        open := open + 1;
        uncommitted := row;
      }
    }

    method UpdateSalt(uuid: string) returns (ok: bool)
      modifies this`uncommitted, this`faults, this`updateFaults
      ensures faults == old(faults) + if ok then 0 else 1
      ensures updateFaults == old(updateFaults) + if ok then 0 else 1
      ensures ok ==> uncommitted == Some(Rotated(old(uncommitted), clock, uuid))
    {
      var fails := Fails();
      ok := !fails;
      if fails {
        updateFaults := updateFaults + 1;
      } else if Outdated(uncommitted, clock) {
        uncommitted := Some(SaltRow(uuid, clock));
      }
    }

    method GetSalt() returns (r: Option<SaltRow>)
      requires uncommitted.Some?
      modifies this`faults
      ensures faults == old(faults) + if r.Some? then 0 else 1
      ensures r.Some? ==> r == uncommitted
    {
      var fails := Fails();
      r := if fails then None else uncommitted;
    }

    method Commit() returns (ok: bool)
      requires open > 0
      modifies this`row, this`open, this`faults
      ensures faults == old(faults) + if ok then 0 else 1
      ensures if ok then row == uncommitted && open == old(open) - 1 else row == old(row) && open == old(open)
    {
      var fails := Fails();
      ok := !fails;
      if ok {
        row, open := uncommitted, open - 1;
      }
    }

    method Rollback()
      requires open > 0
      modifies this`open
      ensures open == old(open) - 1
    {
      open := open - 1;
    }
  }

  class DailySalt {
    var salt: string
    var createdAt: int
    const pool: SaltDb
    ghost var answered: bool

    constructor (pool: SaltDb, uuid: string)
      ensures this.pool == pool
      ensures View() == Salted(SaltRow(uuid, ZERO_TIME), pool.row, pool.clock, false, pool.open, pool.updateFaults)
    {
      this.pool, salt, createdAt, answered := pool, uuid, ZERO_TIME, false;
    }

    ghost function View(): Salted
      reads this, pool
    {
      Salted(SaltRow(salt, createdAt), pool.row, pool.clock, answered, pool.open, pool.updateFaults)
    }

    /** `getSalt`. The deferred rollback tests the `err` of the block, which the failure of
        `UpdateSalt` does not set: exactly that failure leaves its transaction open. */
    method GetSalt(uuid: string) returns (a: Answer, t: int)
      modifies this, pool
      ensures Called(old(View()), View(), t, uuid, a)
      ensures a.ok && old(createdAt) < t - 24 * 60 * 60 * 1_000_000 ==>
                && a.salt == salt && pool.row == Some(SaltRow(salt, createdAt))
                && if old(pool.row).None? || old(pool.row).value.createdAt < pool.clock
                   then salt == uuid && createdAt == pool.clock
                   else pool.row == old(pool.row)
      ensures pool.faults == old(pool.faults) + if a.ok then 0 else 1
      ensures pool.open == old(pool.open) + (pool.updateFaults - old(pool.updateFaults))
    {
      t := pool.Tick();
      if createdAt < t - DAY {
        var begun := pool.Begin();
        if !begun {
          return Answer("", false), t;
        }
        var updated := pool.UpdateSalt(uuid);
        if !updated {
          return Answer("", false), t;
        }
        var result := pool.GetSalt();
        if result.None? {
          pool.Rollback();
          return Answer("", false), t;
        }
        var committed := pool.Commit();
        if !committed {
          pool.Rollback();
          return Answer("", false), t;
        }
        createdAt := result.value.createdAt;
        salt := result.value.salt;
        answered := true;
        return Answer(salt, true), t;
      }
      return Answer(salt, true), t;
    }
  }

  // ---------- runs of calls ----------

  ghost predicate Start(s: Salted) {
    && s.cache.createdAt == ZERO_TIME && !s.answered && 0 <= s.clock
    && (s.row.Some? ==> s.row.value.createdAt <= s.clock)
  }

  ghost predicate IsRun(run: seq<Salted>, times: seq<int>, uuids: seq<string>, answers: seq<Answer>) {
    && |run| == |times| + 1 == |uuids| + 1 == |answers| + 1 && Start(run[0])
    && forall k | 0 <= k < |times| :: Called(run[k], run[k + 1], times[k], uuids[k], answers[k])
  }

  ghost predicate SaltInv(s: Salted) {
    && 0 <= s.clock && s.cache.createdAt <= s.clock
    && (s.row.Some? ==> s.row.value.createdAt <= s.clock)
    && if s.answered then s.row == Some(s.cache) else s.cache.createdAt == ZERO_TIME
  }

  lemma {:induction false} CallKeeps(s: Salted, u: Salted, t: int, uuid: string, a: Answer)
    requires SaltInv(s) && Called(s, u, t, uuid, a)
    ensures SaltInv(u) && (s.answered ==> u.answered)
  {
  }

  /** From the first success on, in every state and across failed refreshes, the cache is the
      table's one row. */
  lemma {:induction false} CacheIsRow(run: seq<Salted>, times: seq<int>, uuids: seq<string>, answers: seq<Answer>, k: nat)
    requires IsRun(run, times, uuids, answers) && k < |run|
    ensures SaltInv(run[k]) && (run[k].answered ==> run[k].row == Some(run[k].cache))
    ensures k > 0 && answers[k - 1].ok ==> run[k].answered
  {
    if k > 0 {
      CacheIsRow(run, times, uuids, answers, k - 1);
      CallKeeps(run[k - 1], run[k], times[k - 1], uuids[k - 1], answers[k - 1]);
      SuccessAnswers(run[k - 1], run[k], times[k - 1], uuids[k - 1], answers[k - 1]);
    }
  }

  /** A call succeeds with the salt that is then cached, never older than a day when the call looked;
      it changes the salt only if the cached one was older than a day; and a failed call returns the
      empty string and changes neither cache nor table. */
  lemma {:induction false} SuccessAnswers(s: Salted, u: Salted, t: int, uuid: string, a: Answer)
    requires SaltInv(s) && Called(s, u, t, uuid, a)
    ensures a.ok ==> u.answered && a.salt == u.cache.salt && t - u.cache.createdAt <= 24 * 60 * 60 * 1_000_000
    ensures u.cache != s.cache ==> a.ok && t - s.cache.createdAt > 24 * 60 * 60 * 1_000_000 && u.cache.createdAt >= t
    ensures !a.ok <==> t - s.cache.createdAt > 24 * 60 * 60 * 1_000_000 && u.cache == s.cache
    ensures !a.ok ==> a.salt == "" && u.row == s.row
  {
  }

  /** A successful refresh brings a new salt, unless the table's row is no older than its
      transaction: then it adopts that row. An instance that has answered before always gets a new
      salt, since its own row is then more than a day old. */
  lemma {:induction false} RefreshBringsSalt(s: Salted, u: Salted, t: int, uuid: string, a: Answer)
    requires SaltInv(s) && Called(s, u, t, uuid, a) && a.ok && t - s.cache.createdAt > 24 * 60 * 60 * 1_000_000
    ensures if s.row.None? || s.row.value.createdAt < u.clock then u.cache == SaltRow(uuid, u.clock) else u.cache == s.row.value
    ensures s.answered ==> u.cache == SaltRow(uuid, u.clock)
    ensures u.row == Some(u.cache)
  {
  }

  /** Salts of one instance: after the first success each new salt is more than a day younger than
      the one it replaces, so within a day of its creation a salt is not replaced. */
  lemma {:induction false} SaltsLastADay(run: seq<Salted>, times: seq<int>, uuids: seq<string>, answers: seq<Answer>, j: nat, k: nat)
    requires IsRun(run, times, uuids, answers) && j <= k < |run| && run[j].answered
    ensures run[k].answered && run[j].cache.createdAt <= run[k].cache.createdAt
    ensures run[k].cache == run[j].cache || run[k].cache.createdAt > run[j].cache.createdAt + 24 * 60 * 60 * 1_000_000
  {
    if j < k {
      SaltsLastADay(run, times, uuids, answers, j, k - 1);
      CacheIsRow(run, times, uuids, answers, k - 1);
      CallKeeps(run[k - 1], run[k], times[k - 1], uuids[k - 1], answers[k - 1]);
      SuccessAnswers(run[k - 1], run[k], times[k - 1], uuids[k - 1], answers[k - 1]);
    }
  }

  // ---------- every rotation brings a salt never seen before ----------

  /** No two of the salts that can come up are the same: the one the instance makes up at its start,
      the one it finds in the table, and those the database makes up. */
  ghost predicate AllDistinct(s: Salted, uuids: seq<string>) {
    && (forall i, j | 0 <= i < j < |uuids| :: uuids[i] != uuids[j])
    && s.cache.salt !in uuids
    && (s.row.Some? ==> s.row.value.salt !in uuids && s.row.value.salt != s.cache.salt)
  }

  /** The row was made by call `i`. */
  ghost predicate MadeBy(row: SaltRow, run: seq<Salted>, uuids: seq<string>, i: int) {
    0 <= i < |uuids| && i + 1 < |run| && row == SaltRow(uuids[i], run[i + 1].clock)
  }

  lemma {:induction false} UnansweredUnchanged(run: seq<Salted>, times: seq<int>, uuids: seq<string>, answers: seq<Answer>, k: nat)
    requires IsRun(run, times, uuids, answers) && k < |run| && !run[k].answered
    ensures run[k].cache == run[0].cache && run[k].row == run[0].row
  {
    if k > 0 {
      CacheIsRow(run, times, uuids, answers, k);
      CacheIsRow(run, times, uuids, answers, k - 1);
      CallKeeps(run[k - 1], run[k], times[k - 1], uuids[k - 1], answers[k - 1]);
      UnansweredUnchanged(run, times, uuids, answers, k - 1);
    }
  }

  lemma {:induction false} CacheOrigin(run: seq<Salted>, times: seq<int>, uuids: seq<string>, answers: seq<Answer>, k: nat)
    requires IsRun(run, times, uuids, answers) && k < |run|
    ensures run[k].cache == run[0].cache || Some(run[k].cache) == run[0].row
            || exists i :: MadeBy(run[k].cache, run, uuids, i)
  {
    if k > 0 {
      CacheOrigin(run, times, uuids, answers, k - 1);
      CacheIsRow(run, times, uuids, answers, k - 1);
      if run[k].cache != run[k - 1].cache {
        SuccessAnswers(run[k - 1], run[k], times[k - 1], uuids[k - 1], answers[k - 1]);
        RefreshBringsSalt(run[k - 1], run[k], times[k - 1], uuids[k - 1], answers[k - 1]);
        if run[k].cache == SaltRow(uuids[k - 1], run[k].clock) {
          assert MadeBy(run[k].cache, run, uuids, k - 1);
        } else {
          UnansweredUnchanged(run, times, uuids, answers, k - 1);
        }
      }
    }
  }

  /** Cached rows of a run that differ have different salts, however far apart they are. */
  lemma {:induction false} NewRowsNewSalts(run: seq<Salted>, times: seq<int>, uuids: seq<string>, answers: seq<Answer>, j: nat, k: nat)
    requires IsRun(run, times, uuids, answers) && j < |run| && k < |run| && AllDistinct(run[0], uuids)
    ensures run[j].cache != run[k].cache ==> run[j].cache.salt != run[k].cache.salt
  {
    CacheOrigin(run, times, uuids, answers, j);
    CacheOrigin(run, times, uuids, answers, k);
  }

  // ---------- transactions left open ----------

  /** Over any stretch of any run as many transactions are left open as calls of `UpdateSalt` failed:
      none of those is ever closed, and no other failure, and no success, leaves one open. */
  lemma {:induction false} OpenAreFailedUpdates(run: seq<Salted>, times: seq<int>, uuids: seq<string>, answers: seq<Answer>, j: nat, k: nat)
    requires IsRun(run, times, uuids, answers) && j <= k < |run|
    ensures run[k].leaked - run[j].leaked == run[k].updateFaults - run[j].updateFaults >= 0
  {
    if j < k {
      OpenAreFailedUpdates(run, times, uuids, answers, j, k - 1);
      CallLeaks(run[k - 1], run[k], times[k - 1], uuids[k - 1], answers[k - 1]);
    }
  }

  lemma {:induction false} CallLeaks(s: Salted, u: Salted, t: int, uuid: string, a: Answer)
    requires Called(s, u, t, uuid, a)
    ensures u.leaked - s.leaked == u.updateFaults - s.updateFaults
    ensures 0 <= u.leaked - s.leaked <= if a.ok then 0 else 1
  {
  }

  // ---------- restarts ----------

  /** Across a restart the day does not count: the first successful call of a new instance replaces
      the table's row exactly when the row is older than that call's transaction, by however little. */
  lemma {:induction false} RestartRotates(s: Salted, u: Salted, t: int, uuid: string, a: Answer)
    requires Start(s) && Called(s, u, t, uuid, a) && a.ok
    ensures u.row != s.row <==> s.row.None? || s.row.value.createdAt < u.clock
    ensures u.row != s.row ==> u.row == Some(SaltRow(uuid, u.clock))
    ensures u.row == Some(u.cache)
  {
  }
}
