/** The durable fixed-window login limiter, against one that never forgets a row. */
module LoginRateLimit {
  import opened Prelude

  const CLEANUP_INTERVAL_MS: nat := 60_000

  datatype Scope = Ip | Global | Account
  datatype Key = Key(scope: Scope, bucketKey: string)
  datatype Row = Row(attempts: nat, resetAt: nat)
  datatype Request = Request(now: nat, windowMs: nat)
  datatype Answer = Answer(allowed: bool, attempts: nat, resetAt: nat)

  // ----- the limiter that never prunes -----

  /** A request starts a window where there is none or where the old one is over, and counts in it otherwise. */
  function Take(row: Option<Row>, r: Request): Row {
    if row.None? || row.value.resetAt <= r.now then Row(1, r.now + r.windowMs)
    else Row(row.value.attempts + 1, row.value.resetAt)
  }

  function RowAfter(requests: seq<Request>): Option<Row> {
    if requests == [] then None
    else Some(Take(RowAfter(requests[..|requests| - 1]), requests[|requests| - 1]))
  }

  predicate Ascending(requests: seq<Request>) {
    forall i, j | 0 <= i < j < |requests| :: requests[i].now <= requests[j].now
  }

  /** The row right after request k. */
  function RowAt(requests: seq<Request>, k: nat): Row
    requires k < |requests|
  {
    Take(RowAfter(requests[..k]), requests[k])
  }

  predicate Allowed(requests: seq<Request>, limit: nat, k: nat)
    requires k < |requests|
  {
    RowAt(requests, k).attempts <= limit
  }

  /** Whether request k opens a window. */
  predicate Opens(requests: seq<Request>, k: nat)
    requires k < |requests|
  {
    var row := RowAfter(requests[..k]);
    row.None? || row.value.resetAt <= requests[k].now
  }

  /** How many of the requests from i up to j are allowed. */
  function Count(requests: seq<Request>, limit: nat, i: nat, j: nat): nat
    requires i <= j <= |requests|
  {
    if i == j then 0 else Count(requests, limit, i, j - 1) + if Allowed(requests, limit, j - 1) then 1 else 0
  }

  lemma RowsFollow(requests: seq<Request>, k: nat)
    requires k < |requests|
    ensures RowAfter(requests[..k + 1]) == Some(RowAt(requests, k))
  {
    assert requests[..k + 1][..k] == requests[..k];
  }

  /** What a window still admits from a request on that is its n-th. */
  function Room(limit: nat, n: nat): nat {
    if n <= limit then limit - n + 1 else 0
  }

  /** As long as no further window opens, requests are counted one by one, and admitted while there is room. */
  lemma {:induction false} WindowAdmits(requests: seq<Request>, limit: nat, i: nat, j: nat)
    requires i < j <= |requests| && forall k | i < k < j :: !Opens(requests, k)
    ensures Count(requests, limit, i, j) <= Room(limit, RowAt(requests, i).attempts) <= limit
    ensures Count(requests, limit, i, j) <= j - i
    ensures RowAt(requests, j - 1) == RowAt(requests, i).(attempts := RowAt(requests, i).attempts + (j - 1 - i))
    decreases j
  {
    if i < j - 1 {
      WindowAdmits(requests, limit, i, j - 1);
      assert !Opens(requests, j - 1);
      RowsFollow(requests, j - 2);
    } else {
      assert Count(requests, limit, i, i) == 0;
    }
  }

  lemma {:induction false} CountSplits(requests: seq<Request>, limit: nat, i: nat, m: nat, j: nat)
    requires i <= m <= j <= |requests|
    ensures Count(requests, limit, i, j) == Count(requests, limit, i, m) + Count(requests, limit, m, j)
    decreases j
  {
    if m < j {
      CountSplits(requests, limit, i, m, j - 1);
    }
  }

  /** A window that opened within a stretch shorter than itself is still open at the stretch's end. */
  lemma {:induction false} StaysOpen(requests: seq<Request>, windowMs: nat, m: nat, j: nat)
    requires m < j <= |requests| && Opens(requests, m) && Ascending(requests)
    requires requests[m].windowMs == windowMs && requests[j - 1].now < requests[m].now + windowMs
    ensures forall k | m < k < j :: !Opens(requests, k)
    ensures RowAt(requests, j - 1).resetAt == requests[m].now + windowMs
    decreases j
  {
    if m < j - 1 {
      assert requests[j - 2].now <= requests[j - 1].now;
      StaysOpen(requests, windowMs, m, j - 1);
      RowsFollow(requests, j - 2);
    }
  }

  predicate OneWindow(requests: seq<Request>, windowMs: nat) {
    forall r | r in requests :: r.windowMs == windowMs
  }

  /** A request that opens no window is at least the second of one. */
  lemma OpenerIsFirst(requests: seq<Request>, k: nat)
    requires k < |requests| && requests[k].windowMs > 0
    ensures RowAt(requests, k).resetAt > requests[k].now
    ensures if Opens(requests, k) then RowAt(requests, k) == Row(1, requests[k].now + requests[k].windowMs)
            else RowAt(requests, k).attempts >= 2
  {
  }

  /** A window that opens after request i opens later than i, and not before i's own is over. */
  lemma NextWindow(requests: seq<Request>, i: nat, m: nat)
    requires i < m < |requests| && Opens(requests, m) && forall k | i < k < m :: !Opens(requests, k)
    requires requests[i].windowMs > 0
    ensures requests[i].now < RowAt(requests, i).resetAt <= requests[m].now
  {
    OpenerIsFirst(requests, i);
    WindowAdmits(requests, 0, i, m);
    RowsFollow(requests, m - 1);
  }

  /** Of a stretch whose first further window opens at m, the first part has room for all but its opener at most. */
  lemma TwoWindowsAdmit(requests: seq<Request>, limit: nat, windowMs: nat, i: nat, m: nat, j: nat)
    requires i < m < j <= |requests| && Ascending(requests) && OneWindow(requests, windowMs) && windowMs > 0 && limit > 0
    requires requests[j - 1].now <= requests[i].now + windowMs
    requires Opens(requests, m) && forall k | i < k < m :: !Opens(requests, k)
    ensures Count(requests, limit, i, j) <= 2 * limit
    ensures requests[j - 1].now < requests[i].now + windowMs ==> Count(requests, limit, i, j) <= 2 * limit - 1
  {
    assert requests[i] in requests && requests[m] in requests && requests[m].now <= requests[j - 1].now;
    NextWindow(requests, i, m);
    StaysOpen(requests, windowMs, m, j);
    CountSplits(requests, limit, i, m, j);
    WindowAdmits(requests, limit, i, m);
    WindowAdmits(requests, limit, m, j);
    OpenerIsFirst(requests, i);
  }

  /**
   A stretch of time no longer than a window admits at most twice the limit, and a shorter one at most one less than
   that.
   */
  lemma IntervalAdmits(requests: seq<Request>, limit: nat, windowMs: nat, i: nat, j: nat)
    requires i < j <= |requests| && Ascending(requests) && OneWindow(requests, windowMs) && windowMs > 0 && limit > 0
    requires requests[j - 1].now <= requests[i].now + windowMs
    ensures Count(requests, limit, i, j) <= 2 * limit
    ensures requests[j - 1].now < requests[i].now + windowMs ==> Count(requests, limit, i, j) <= 2 * limit - 1
  {
    if m :| i < m < j && Opens(requests, m) && forall k | i < k < m :: !Opens(requests, k) {
      TwoWindowsAdmit(requests, limit, windowMs, i, m, j);
    } else {
      NoneOpens(requests, i, j);
      WindowAdmits(requests, limit, i, j);
    }
  }

  /** One request at the start, the rest of the limit at time t, and the limit once more when the window is over. */
  function Bursts(limit: nat, windowMs: nat, t: nat): (requests: seq<Request>)
    ensures |requests| == 2 * limit
  {
    seq(2 * limit, k => Request(if k == 0 then 0 else if k < limit then t else windowMs, windowMs))
  }

  lemma {:induction false} BurstRow(limit: nat, windowMs: nat, t: nat, k: nat)
    requires k < 2 * limit && t < windowMs
    ensures RowAt(Bursts(limit, windowMs, t), k)
         == if k < limit then Row(k + 1, windowMs) else Row(k - limit + 1, 2 * windowMs)
    decreases k
  {
    if k > 0 {
      BurstRow(limit, windowMs, t, k - 1);
      RowsFollow(Bursts(limit, windowMs, t), k - 1);
    }
  }

  lemma {:induction false} AllAllowed(requests: seq<Request>, limit: nat, i: nat, j: nat)
    requires i <= j <= |requests| && forall k | i <= k < j :: Allowed(requests, limit, k)
    ensures Count(requests, limit, i, j) == j - i
    decreases j
  {
    if i < j {
      AllAllowed(requests, limit, i, j - 1);
    }
  }

  /** Both bounds are reached, for every limit and every window. */
  lemma BoundsAreReached(limit: nat, windowMs: nat, t: nat)
    requires limit > 0 && t < windowMs
    ensures var requests := Bursts(limit, windowMs, t);
            && Ascending(requests) && OneWindow(requests, windowMs)
            && requests[2 * limit - 1].now == requests[0].now + windowMs
            && Count(requests, limit, 0, 2 * limit) == 2 * limit
            && requests[2 * limit - 1].now - requests[1].now <= windowMs - t
            && Count(requests, limit, 1, 2 * limit) == 2 * limit - 1
  {
    var requests := Bursts(limit, windowMs, t);
    forall k | 0 <= k < 2 * limit ensures Allowed(requests, limit, k) {
      BurstRow(limit, windowMs, t, k);
    }
    AllAllowed(requests, limit, 0, 2 * limit);
    AllAllowed(requests, limit, 1, 2 * limit);
  }

  /** If no request is the first to open a window, none opens one. */
  lemma {:induction false} NoneOpens(requests: seq<Request>, i: nat, j: nat)
    requires i < j <= |requests|
    requires forall m | i < m < j && Opens(requests, m) :: exists k | i < k < m :: Opens(requests, k)
    ensures forall k | i < k < j :: !Opens(requests, k)
    decreases j
  {
    if i + 1 < j {
      NoneOpens(requests, i, j - 1);
    }
  }

  // ----- the program -----

  ghost predicate Remembered(rows: map<Key, Row>, history: map<Key, seq<Request>>, clock: nat, key: Key) {
    var requests := if key in history then history[key] else [];
    && Ascending(requests) && (forall r | r in requests :: r.now <= clock)
    && (if key in rows then RowAfter(requests) == Some(rows[key])
        else RowAfter(requests).Some? ==> RowAfter(requests).value.resetAt <= clock)
  }

  ghost predicate AllRemembered(rows: map<Key, Row>, history: map<Key, seq<Request>>, clock: nat) {
    forall key :: Remembered(rows, history, clock, key)
  }

  class Limiter {
    var rows: map<Key, Row>
    var lastCleanupAt: nat

    ghost var clock: nat
    /** Every request consumed for a key. */
    ghost var history: map<Key, seq<Request>>

    ghost predicate Valid()
      reads this
    {
      AllRemembered(rows, history, clock)
    }

    ghost function Requests(key: Key): seq<Request>
      reads this
    {
      if key in history then history[key] else []
    }

    constructor ()
      ensures Valid() && rows == map[] && history == map[] && clock == 0
    {
      rows, lastCleanupAt, clock, history := map[], 0, 0, map[];
    }

    /** A new process on the same database. */
    method Restart()
      requires Valid()
      modifies this`lastCleanupAt
      ensures Valid() && lastCleanupAt == 0
    {
      lastCleanupAt := 0;
    }

    method PruneExpired(now: nat, force: bool) returns (changes: nat)
      requires Valid() && clock <= now
      modifies this`rows, this`lastCleanupAt, this`clock
      ensures Valid() && clock == now
      ensures if force || now >= old(lastCleanupAt) + CLEANUP_INTERVAL_MS then
                && lastCleanupAt == now
                && rows == map key | key in old(rows) && old(rows)[key].resetAt > now :: old(rows)[key]
              else rows == old(rows) && lastCleanupAt == old(lastCleanupAt)
      ensures changes == |old(rows).Keys - rows.Keys|
    {
      clock := now;
      assert forall key :: Remembered(rows, history, clock, key) by {
        forall key ensures Remembered(rows, history, clock, key) {
          assert Remembered(rows, history, old(clock), key);
        }
      }
      if !force && now as int - lastCleanupAt as int < CLEANUP_INTERVAL_MS {
        assert rows.Keys - rows.Keys == {};
        return 0;
      }
      lastCleanupAt := now;
      var kept := map key | key in rows && rows[key].resetAt > now :: rows[key];
      changes := |rows.Keys - kept.Keys|;
      ghost var was := rows;
      rows := kept;
      forall key ensures Remembered(rows, history, clock, key) {
        assert Remembered(was, history, clock, key);
      }
    }

    /** Counts a request; the answer depends on the requests for the key alone, never on what was pruned. */
    method Consume(key: Key, limit: int, windowMs: int, now: nat) returns (answer: Option<Answer>)
      requires Valid() && clock <= now
      modifies this
      ensures Valid()
      ensures answer.Some? <==> limit >= 1 && windowMs >= 1 && key.bucketKey != ""
      ensures answer.None? ==> history == old(history) && rows == old(rows)
      ensures answer.Some? ==>
                var requests := old(Requests(key)) + [Request(now, windowMs)];
                && history == old(history)[key := requests]
                && RowAfter(requests) == Some(Row(answer.value.attempts, answer.value.resetAt))
                && answer.value.allowed == Allowed(requests, limit, |requests| - 1)
    {
      if limit < 1 || windowMs < 1 || key.bucketKey == "" {
        return None;
      }
      var _ := PruneExpired(now, false);
      assert Remembered(rows, history, clock, key);
      var row := Upsert(key, Request(now, windowMs));
      return Some(Answer(row.attempts <= limit, row.attempts, row.resetAt));
    }

    /** Inserts the row of a request or updates the one there is. */
    method Upsert(key: Key, r: Request) returns (row: Row)
      requires Valid() && clock == r.now
      modifies this`rows, this`history
      ensures Valid()
      ensures var requests := old(Requests(key)) + [r];
              && history == old(history)[key := requests]
              && row == RowAt(requests, |requests| - 1) && RowAfter(requests) == Some(row)
    {
      var resetAt := r.now + r.windowMs;
      row :=
        if key !in rows then Row(1, resetAt)
        else Row(if rows[key].resetAt <= r.now then 1 else rows[key].attempts + 1,
                 if rows[key].resetAt <= r.now then resetAt else rows[key].resetAt);
      ghost var requests := Requests(key) + [r];
      Stored(rows, history, clock, key, r, row, requests);
      history := history[key := requests];
      rows := rows[key := row];
    }
  }

  lemma Stored(rows: map<Key, Row>, history: map<Key, seq<Request>>, clock: nat, key: Key, r: Request, row: Row,
               requests: seq<Request>)
    requires AllRemembered(rows, history, clock) && r.now == clock
    requires row == Take(if key in rows then Some(rows[key]) else None, r)
    requires requests == (if key in history then history[key] else []) + [r]
    ensures AllRemembered(rows[key := row], history[key := requests], clock)
    ensures row == RowAt(requests, |requests| - 1) && RowAfter(requests) == Some(row)
  {
    var rows', history' := rows[key := row], history[key := requests];
    assert Remembered(rows, history, clock, key);
    TakesOne(rows, history, clock, key, r);
    forall other ensures Remembered(rows', history', clock, other) {
      assert Remembered(rows, history, clock, other);
    }
  }

  /** A pruned row counts as little as one whose window is over. */
  lemma TakesOne(rows: map<Key, Row>, history: map<Key, seq<Request>>, clock: nat, key: Key, r: Request)
    requires Remembered(rows, history, clock, key) && r.now == clock
    ensures var past := if key in history then history[key] else [];
            var requests := past + [r];
            && Ascending(requests) && (forall q | q in requests :: q.now <= clock)
            && RowAfter(requests) == Some(RowAt(requests, |requests| - 1))
            && RowAfter(requests) == Some(Take(if key in rows then Some(rows[key]) else None, r))
  {
    var past := if key in history then history[key] else [];
    assert (past + [r])[..|past|] == past;
  }

  /** In every run: a window admits at most the limit, and any stretch as long as a window at most twice that. */
  lemma LimitHolds(limiter: Limiter, key: Key, limit: nat, windowMs: nat, i: nat, j: nat)
    requires limiter.Valid() && i < j <= |limiter.Requests(key)| && OneWindow(limiter.Requests(key), windowMs)
    requires limit > 0 && windowMs > 0
    ensures (forall k | i < k < j :: !Opens(limiter.Requests(key), k)) ==>
              Count(limiter.Requests(key), limit, i, j) <= limit
    ensures limiter.Requests(key)[j - 1].now <= limiter.Requests(key)[i].now + windowMs ==>
              Count(limiter.Requests(key), limit, i, j) <= 2 * limit
    ensures limiter.Requests(key)[j - 1].now < limiter.Requests(key)[i].now + windowMs ==>
              Count(limiter.Requests(key), limit, i, j) <= 2 * limit - 1
  {
    var requests := limiter.Requests(key);
    assert Remembered(limiter.rows, limiter.history, limiter.clock, key);
    if forall k | i < k < j :: !Opens(requests, k) {
      WindowAdmits(requests, limit, i, j);
    }
    if requests[j - 1].now <= requests[i].now + windowMs {
      IntervalAdmits(requests, limit, windowMs, i, j);
    }
  }
}
