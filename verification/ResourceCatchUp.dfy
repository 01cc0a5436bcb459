/** Catching up on a quiet server: how many calls it takes, and why reading only the
    latest version of each row loses nothing. */
module ResourceCatchUp {
  import opened Prelude
  import opened Resources
  import opened ResourceSync

  /** What every reachable table satisfies (see `ServerInv`). */
  ghost predicate Table(rows: Rows) {
    Keyed(rows) && Distinct(rows) && StampedUpTo(rows, I64_MAX)
  }

  lemma FeedAfterSync(rows: Rows, c: Client, requested: nat)
    requires Table(rows) && c.cursor <= I64_MAX
    ensures var d := SyncOnce(c, rows, requested);
            var batch := StreamChanges(rows, c.scope, c.cursor, requested);
            && d.cursor <= I64_MAX
            && Feed(rows, c.scope, d.cursor) == Feed(rows, c.scope, c.cursor)[|batch|..]
  {
    var batch := StreamChanges(rows, c.scope, c.cursor, requested);
    BatchFacts(rows, c, requested);
    if batch != [] {
      assert Last(batch) in batch;
      assert Last(batch) == Feed(rows, c.scope, c.cursor)[|batch| - 1];
      FeedContinues(rows, c.scope, c.cursor, |batch|);
    }
  }

  /** A call that returns anything moves the cursor forward; one that returns nothing
      leaves the client as it was. */
  lemma CursorStrictlyIncreases(rows: Rows, c: Client, requested: nat)
    requires Table(rows) && c.cursor <= I64_MAX
    ensures var d := SyncOnce(c, rows, requested);
            if StreamChanges(rows, c.scope, c.cursor, requested) == [] then d == c else d.cursor > c.cursor
  {
    BatchFacts(rows, c, requested);
    var batch := StreamChanges(rows, c.scope, c.cursor, requested);
    if batch != [] { assert Last(batch) in batch; }
  }

  /** An unsigned cursor past the column's range means there is nothing newer. */
  lemma CursorPastTheColumn(rows: Rows, scope: Scope, cursor: nat, requested: nat)
    requires Table(rows) && cursor > 0x7fff_ffff_ffff_ffff
    ensures StreamChanges(rows, scope, cursor, requested) == []
  {
    NothingNewer(rows, scope, I64_MAX);
  }

  // --------------------------------------------------------------- number of calls

  /** The client's loop: call until a call returns nothing. */
  ghost function CallsUntilEmpty(rows: Rows, c: Client, requested: nat): nat
    requires Table(rows) && c.cursor <= I64_MAX
    decreases |Feed(rows, c.scope, c.cursor)|
  {
    if StreamChanges(rows, c.scope, c.cursor, requested) == [] then 1
    else
      FeedAfterSync(rows, c, requested);
      1 + CallsUntilEmpty(rows, SyncOnce(c, rows, requested), requested)
  }

  /** `k` is `n / limit` rounded up. */
  predicate RoundedUp(k: int, n: int, limit: int) {
    (k - 1) * limit < n <= k * limit
  }

  lemma OneMoreBatch(k: int, n: int, limit: int)
    requires limit >= 1 && n >= 1
    requires RoundedUp(k, if n <= limit then 0 else n - limit, limit)
    ensures RoundedUp(k + 1, n, limit)
  {
    assert k * limit == (k - 1) * limit + limit;
    assert (k + 1) * limit == k * limit + limit;
  }

  /** With n rows past the cursor and no writer, exactly n / limit rounded up calls
      return rows, and one more returns none; the limit is the clamped one. */
  lemma {:induction false} CatchUpTakesExactly(rows: Rows, c: Client, requested: nat)
    requires Table(rows) && c.cursor <= I64_MAX
    ensures var n, limit := |Feed(rows, c.scope, c.cursor)|, ClampChangesLimit(requested);
            var full := CallsUntilEmpty(rows, c, requested) - 1;
            (full - 1) * limit < n <= full * limit
    decreases |Feed(rows, c.scope, c.cursor)|
  {
    var n, limit := |Feed(rows, c.scope, c.cursor)|, ClampChangesLimit(requested);
    if n > 0 {
      var next := SyncOnce(c, rows, requested);
      FeedAfterSync(rows, c, requested);
      CatchUpTakesExactly(rows, next, requested);
      OneMoreBatch(CallsUntilEmpty(rows, next, requested) - 1, n, limit);
    }
  }

  // -------------------------------------------------------------- any batch sizes

  function SyncMany(c: Client, rows: Rows, requests: seq<nat>): Client
    decreases |requests|
  {
    if requests == [] then c else SyncMany(SyncOnce(c, rows, requests[0]), rows, requests[1..])
  }

  /** The calls are steps of the sync protocol with the writers quiet. */
  lemma {:induction false} SyncManyIsRun(s: Server, c: Client, requests: seq<nat>)
    ensures Exec(World(s, c), Syncs(requests)) == World(s, SyncMany(c, s.rows, requests))
    decreases |requests|
  {
    if requests != [] {
      assert Syncs(requests)[1..] == Syncs(requests[1..]);
      SyncManyIsRun(s, SyncOnce(c, s.rows, requests[0]), requests[1..]);
    }
  }

  lemma NewerSplits(rows: Rows, scope: Scope, from: int, at: int)
    requires from <= at
    ensures Newer(rows, scope, from) == Between(rows, scope, from, at) + Newer(rows, scope, at)
  {}

  lemma OneBatch(c: Client, rows: Rows, requested: nat)
    requires Table(rows) && c.cursor <= I64_MAX
    ensures var d := SyncOnce(c, rows, requested);
            d.replica + Newer(rows, c.scope, d.cursor) == c.replica + Newer(rows, c.scope, c.cursor)
  {
    var d := SyncOnce(c, rows, requested);
    SyncEffect(rows, c, requested);
    NewerSplits(rows, c.scope, c.cursor, d.cursor);
    PlusAssociates(c.replica, Between(rows, c.scope, c.cursor, d.cursor), Newer(rows, c.scope, d.cursor));
  }

  lemma PlusAssociates(a: Rows, b: Rows, c: Rows)
    ensures (a + b) + c == a + (b + c)
  {}

  /** However the calls are cut, applying them and then the rest of the feed comes to
      applying the whole feed. */
  lemma {:induction false} AnyBatchSizes(c: Client, rows: Rows, requests: seq<nat>)
    requires Table(rows) && c.cursor <= I64_MAX
    ensures var d := SyncMany(c, rows, requests);
            && d.scope == c.scope && d.cursor <= I64_MAX
            && d.replica + Newer(rows, c.scope, d.cursor) == c.replica + Newer(rows, c.scope, c.cursor)
    decreases |requests|
  {
    if requests != [] {
      OneBatch(c, rows, requests[0]);
      FeedAfterSync(rows, c, requests[0]);
      AnyBatchSizes(SyncOnce(c, rows, requests[0]), rows, requests[1..]);
    }
  }

  // ------------------------------------------------------------------- compaction

  /** The full history past a cursor: every version, superseded ones included. */
  function Past(log: seq<Row>, scope: Scope, since: int): seq<Row> {
    if log == [] then []
    else
      var v := Last(log);
      Past(Front(log), scope, since) + if InScope(scope, v) && v.changeSeq > since then [v] else []
  }

  lemma NewerAfterVersion(before: Rows, v: Row, scope: Scope, since: int)
    requires v.id in before ==> Succeeds(before[v.id], v)
    ensures Newer(before[v.id := v], scope, since)
         == if InScope(scope, v) && v.changeSeq > since then Newer(before, scope, since)[v.id := v]
            else Newer(before, scope, since)
  {}

  lemma {:induction false} HistoryIsNewer(m: Rows, log: seq<Row>, scope: Scope, since: int)
    requires GoodLog(log)
    ensures ApplyAll(m, Past(log, scope, since)) == m + Newer(ApplyAll(map[], log), scope, since)
  {
    if log != [] {
      var before, v, past := ApplyAll(map[], Front(log)), Last(log), Past(Front(log), scope, since);
      HistoryIsNewer(m, Front(log), scope, since);
      NewerAfterVersion(before, v, scope, since);
      assert Front(past + [v]) == past && past + [] == past;
      assert ApplyAll(m, past + [v]) == ApplyAll(m, past)[v.id := v];
      assert ApplyAll(map[], log) == before[v.id := v];
      PlusUpdate(m, Newer(before, scope, since), v);
    }
  }

  lemma ReachableTable(run: seq<Action>, scope: Scope)
    ensures var s := Exec(Start(scope), run).server;
            ServerInv(s) && Table(s.rows)
  {
    StartInv(scope);
    ExecKeepsInv(Start(scope), run);
  }

  /** After any run of the writers, in order or not, and for any replica and cursor:
      once the calls, in whatever sizes, have used up the feed, the replica is what
      replaying every create, update and tombstone past the cursor, in the order they
      became visible, would have given. */
  lemma CompactionPreservesMeaning(run: seq<Action>, c: Client, requests: seq<nat>)
    requires c.cursor <= I64_MAX
    requires var s := Exec(Start(c.scope), run).server;
             Feed(s.rows, c.scope, SyncMany(c, s.rows, requests).cursor) == []
    ensures var s := Exec(Start(c.scope), run).server;
            SyncMany(c, s.rows, requests).replica == ApplyAll(c.replica, Past(s.log, c.scope, c.cursor))
  {
    var s := Exec(Start(c.scope), run).server;
    ReachableTable(run, c.scope);
    AnyBatchSizes(c, s.rows, requests);
    HistoryIsNewer(c.replica, s.log, c.scope, c.cursor);
    ListingMembers(Newer(s.rows, c.scope, SyncMany(c, s.rows, requests).cursor));
  }
}
