/** Keyset paging over the audit log (`list`): newest first, `before_seqno` set to
    the last row of the previous page, appends going on between the calls. */
module AuditPaging {
  import opened Prelude
  import opened AuditLog

  const DEFAULT_PAGE_SIZE: nat := 50
  const MAX_PAGE_SIZE: nat := 200

  /** The content predicates of `ListFilter`. `search` stands for the `ILIKE`
      tests and is true of every row when no search was asked for. */
  datatype ListFilter = ListFilter(actor: Option<Uuid>, since: Option<int>, eventType: Option<string>,
                                   search: Event -> bool)

  predicate Matches(f: ListFilter, e: Event) {
    && (f.actor.Some? ==> e.actorUserId == f.actor)
    && (f.since.Some? ==> e.occurredAtMicros > f.since.value)
    && (f.eventType.Some? ==> e.eventType == f.eventType.value)
    && f.search(e)
  }

  function PageSize(requested: Option<nat>): (n: nat)
    ensures 1 <= n <= 200
    ensures requested.None? ==> n == 50
    ensures requested.Some? && 1 <= requested.value <= 200 ==> n == requested.value
    ensures requested.Some? && requested.value > 200 ==> n == 200
  {
    var n := if requested.Some? then requested.value else DEFAULT_PAGE_SIZE;
    Max(1, Min(n, MAX_PAGE_SIZE))
  }

  predicate Selected(f: ListFilter, before: Option<int>, e: Event) {
    Matches(f, e) && (before.Some? ==> e.seqno < before.value)
  }

  /** The rows that pass the `WHERE` clause, in table order. */
  function Hits(rows: seq<Event>, f: ListFilter, before: Option<int>): seq<Event> {
    if rows == [] then []
    else if Selected(f, before, rows[0]) then [rows[0]] + Hits(rows[1..], f, before)
    else Hits(rows[1..], f, before)
  }

  /** `ORDER BY seqno DESC LIMIT limit`: repeatedly the newest remaining hit. */
  function Page(rows: seq<Event>, f: ListFilter, before: Option<int>, limit: nat): seq<Event>
    decreases limit
  {
    var hits := Hits(rows, f, before);
    if limit == 0 || hits == [] then []
    else
      var e := Newest(hits);
      [e] + Page(rows, f, Some(e.seqno), limit - 1)
  }

  /** The page returned by the last of a series of calls, call `i` reading the
      committed log `logs[i]`. The cursor is the `seqno` of the last row seen; a
      reader who sees an empty page stops. */
  function LastPage(logs: seq<seq<Event>>, f: ListFilter, before: Option<int>, limit: nat): seq<Event>
    requires |logs| > 0
  {
    var page := Page(logs[0], f, before, limit);
    if |logs| == 1 || page == [] then page
    else LastPage(logs[1..], f, Some(Last(page).seqno), limit)
  }

  /** The committed logs that `|gaps| + 1` calls read, when the appenders do
      `gaps[i]` between calls `i` and `i + 1`. */
  function Snapshots(c: Codec, s: State, gaps: seq<seq<Action>>): (logs: seq<seq<Event>>)
    ensures |logs| == |gaps| + 1 && logs[0] == s.log
    decreases |gaps|
  {
    if gaps == [] then [s.log] else [s.log] + Snapshots(c, Exec(c, s, gaps[0]), gaps[1..])
  }

  function Reverse<T>(s: seq<T>): (r: seq<T>)
    ensures |r| == |s|
    ensures forall i :: 0 <= i < |s| ==> r[i] == s[|s| - 1 - i]
  {
    seq(|s|, i requires 0 <= i < |s| => s[|s| - 1 - i])
  }

  /** What a reader of a frozen log would list: every match, newest first. */
  function Descending(rows: seq<Event>, f: ListFilter, before: Option<int>): seq<Event> {
    Reverse(Hits(rows, f, before))
  }

  function Slice<T>(s: seq<T>, from: int, to: int): seq<T>
    requires 0 <= from <= to
  {
    s[Min(from, |s|)..Min(to, |s|)]
  }

  lemma {:induction false} HitsAreSelected(rows: seq<Event>, f: ListFilter, before: Option<int>, e: Event)
    ensures e in Hits(rows, f, before) <==> e in rows && Selected(f, before, e)
  {
    if rows != [] {
      HitsAreSelected(rows[1..], f, before, e);
    }
  }

  lemma {:induction false} HitsIncreasing(rows: seq<Event>, f: ListFilter, before: Option<int>)
    requires Increasing(rows)
    ensures Increasing(Hits(rows, f, before))
  {
    if rows != [] {
      var rest := Hits(rows[1..], f, before);
      HitsIncreasing(rows[1..], f, before);
      forall i | 0 <= i < |rest| ensures rows[0].seqno < rest[i].seqno {
        HitsAreSelected(rows[1..], f, before, rest[i]);
      }
    }
  }

  /** An increasing listing is determined by the rows it contains. */
  lemma {:induction false} IncreasingIsUnique(a: seq<Event>, b: seq<Event>)
    requires Increasing(a) && Increasing(b)
    requires forall e :: e in a <==> e in b
    ensures a == b
  {
    if a == [] {
      assert b == [] by { assert forall i :: 0 <= i < |b| ==> b[i] in b; }
    } else {
      assert a[0] in b;
      assert Last(a) in b && Last(b) in a;
      assert Last(a).seqno == Last(b).seqno;
      assert Last(a) == Last(b);
      forall e ensures e in Front(a) <==> e in Front(b) {
        assert e in Front(a) ==> e in b && e != Last(b);
        assert e in Front(b) ==> e in a && e != Last(a);
      }
      IncreasingIsUnique(Front(a), Front(b));
      assert a == Front(a) + [Last(a)] && b == Front(b) + [Last(b)];
    }
  }

  /** Cutting the hits at one of them leaves the hits in front of it. */
  lemma HitsBelowHit(rows: seq<Event>, f: ListFilter, before: Option<int>, m: nat)
    requires Increasing(rows) && m < |Hits(rows, f, before)|
    ensures var hits := Hits(rows, f, before);
            Hits(rows, f, Some(hits[m].seqno)) == hits[..m]
  {
    var hits := Hits(rows, f, before);
    var cut := Some(hits[m].seqno);
    var below := Hits(rows, f, cut);
    HitsIncreasing(rows, f, before);
    HitsIncreasing(rows, f, cut);
    HitsAreSelected(rows, f, before, hits[m]);
    forall e ensures e in below <==> e in hits[..m] {
      HitsAreSelected(rows, f, before, e);
      HitsAreSelected(rows, f, cut, e);
      if e in below {
        var i :| 0 <= i < |hits| && hits[i] == e;
        assert i < m;
      }
    }
    IncreasingIsUnique(below, hits[..m]);
  }

  lemma DescendingStep(rows: seq<Event>, f: ListFilter, before: Option<int>)
    requires Increasing(rows) && Hits(rows, f, before) != []
    ensures var newest := Newest(Hits(rows, f, before));
            && newest == Last(Hits(rows, f, before))
            && Descending(rows, f, before) == [newest] + Descending(rows, f, Some(newest.seqno))
  {
    var hits := Hits(rows, f, before);
    HitsIncreasing(rows, f, before);
    NewestIsLast(hits);
    HitsBelowHit(rows, f, before, |hits| - 1);
    ReverseLast(hits);
  }

  lemma ReverseLast<T>(s: seq<T>)
    requires s != []
    ensures Reverse(s) == [Last(s)] + Reverse(s[..|s| - 1])
  {}

  lemma SliceCons<T>(x: T, s: seq<T>, n: nat)
    requires n >= 1
    ensures Slice([x] + s, 0, n) == [x] + Slice(s, 0, n - 1)
  {
  }

  lemma PrefixStep(rows: seq<Event>, f: ListFilter, before: Option<int>, limit: nat)
    requires Increasing(rows) && Hits(rows, f, before) != [] && limit >= 1
    ensures var e := Newest(Hits(rows, f, before));
            var rest := Slice(Descending(rows, f, Some(e.seqno)), 0, limit - 1);
            Slice(Descending(rows, f, before), 0, limit) == [e] + rest
  {
    var e := Newest(Hits(rows, f, before));
    DescendingStep(rows, f, before);
    SliceCons(e, Descending(rows, f, Some(e.seqno)), limit);
  }

  /** The page of an increasing table is the first `limit` rows of the descending
      listing. */
  lemma {:induction false} PageIsPrefix(rows: seq<Event>, f: ListFilter, before: Option<int>, limit: nat)
    requires Increasing(rows)
    ensures Page(rows, f, before, limit) == Slice(Descending(rows, f, before), 0, limit)
    decreases limit
  {
    var hits := Hits(rows, f, before);
    if limit == 0 || hits == [] {
      assert Slice(Descending(rows, f, before), 0, limit) == [];
    } else {
      var e := Newest(hits);
      PageIsPrefix(rows, f, Some(e.seqno), limit - 1);
      PrefixStep(rows, f, before, limit);
    }
  }

  lemma {:induction false} PageIsSelected(rows: seq<Event>, f: ListFilter, before: Option<int>, limit: nat)
    ensures |Page(rows, f, before, limit)| <= limit
    ensures forall e <- Page(rows, f, before, limit) :: e in rows && Selected(f, before, e)
    decreases limit
  {
    var hits := Hits(rows, f, before);
    if limit > 0 && hits != [] {
      var newest := Newest(hits);
      HitsAreSelected(rows, f, before, newest);
      PageIsSelected(rows, f, Some(newest.seqno), limit - 1);
    }
  }

  lemma ShortPageIsAll(rows: seq<Event>, f: ListFilter, before: Option<int>, limit: nat)
    requires |Slice(Descending(rows, f, before), 0, limit)| < limit
    ensures forall e <- rows :: Selected(f, before, e) ==> e in Slice(Descending(rows, f, before), 0, limit)
  {
    assert Slice(Descending(rows, f, before), 0, limit) == Descending(rows, f, before);
    forall e <- rows | Selected(f, before, e) ensures e in Descending(rows, f, before) {
      HitsAreSelected(rows, f, before, e);
      ReverseMembers(Hits(rows, f, before), e);
    }
  }

  lemma NewRowsLieAbove(older: seq<Event>, rows: seq<Event>, cursor: int)
    requires Increasing(rows) && older <= rows
    requires exists e <- older :: cursor <= e.seqno
    ensures forall e <- rows :: e.seqno < cursor ==> e in older
  {
    var x :| x in older && cursor <= x.seqno;
    var k :| 0 <= k < |older| && older[k] == x;
    assert rows[k] == x;
    forall e <- rows | e.seqno < cursor ensures e in older {
      var i :| 0 <= i < |rows| && rows[i] == e;
      assert i < k;
      assert older[i] == e;
    }
  }

  /** Rows appended later lie above every cursor into the earlier log. */
  lemma HitsIgnoreNewRows(older: seq<Event>, rows: seq<Event>, f: ListFilter, cursor: int)
    requires Increasing(rows) && older <= rows
    requires exists e <- older :: cursor <= e.seqno
    ensures Hits(rows, f, Some(cursor)) == Hits(older, f, Some(cursor))
  {
    HitsIncreasing(rows, f, Some(cursor));
    HitsIncreasing(older, f, Some(cursor));
    NewRowsLieAbove(older, rows, cursor);
    forall e ensures e in Hits(rows, f, Some(cursor)) <==> e in Hits(older, f, Some(cursor)) {
      HitsAreSelected(rows, f, Some(cursor), e);
      HitsAreSelected(older, f, Some(cursor), e);
    }
    IncreasingIsUnique(Hits(rows, f, Some(cursor)), Hits(older, f, Some(cursor)));
  }

  /** What is left to list below the last row of a page. */
  lemma RestOfListing(rows: seq<Event>, f: ListFilter, before: Option<int>, n: nat)
    requires Increasing(rows) && 0 < n <= |Hits(rows, f, before)|
    ensures var listing := Descending(rows, f, before);
            Descending(rows, f, Some(listing[n - 1].seqno)) == listing[n..]
  {
    var hits := Hits(rows, f, before);
    HitsBelowHit(rows, f, before, |hits| - n);
    assert Reverse(hits[..|hits| - n]) == Reverse(hits)[n..];
  }

  /** The `k`-th page of a listing cut into pages of `limit` rows. */
  function Chunk<T>(s: seq<T>, k: nat, limit: nat): seq<T>
    decreases k
  {
    if k == 0 then Slice(s, 0, limit) else Chunk(s[Min(limit, |s|)..], k - 1, limit)
  }

  lemma SliceOfRest<T>(s: seq<T>, off: nat, limit: nat)
    ensures Slice(s, off + limit, off + limit + limit) == Slice(s[Min(limit, |s|)..], off, off + limit)
  {
    var cut := Min(limit, |s|);
    var rest := s[cut..];
    var x, y := Min(off, |rest|), Min(off + limit, |rest|);
    assert cut + x == Min(off + limit, |s|) && cut + y == Min(off + limit + limit, |s|);
    assert rest[x..y] == s[cut + x..cut + y];
  }

  lemma {:induction false} ChunkIsSlice<T>(s: seq<T>, k: nat, limit: nat)
    ensures k * limit >= 0
    ensures Chunk(s, k, limit) == Slice(s, k * limit, k * limit + limit)
    decreases k
  {
    if k > 0 {
      var off := (k - 1) * limit;
      ChunkIsSlice(s[Min(limit, |s|)..], k - 1, limit);
      assert k * limit == off + limit;
      SliceOfRest(s, off, limit);
    }
  }

  lemma {:induction false} ChunkOfNothing<T>(k: nat, limit: nat)
    ensures Chunk<T>([], k, limit) == []
  {
    if k > 0 {
      ChunkOfNothing<T>(k - 1, limit);
    }
  }

  /** A call sees the listing of the log at the first call, cut at its cursor. */
  lemma PageOfGrownLog(first: seq<Event>, rows: seq<Event>, f: ListFilter, before: Option<int>, limit: nat)
    requires Increasing(rows) && first <= rows
    requires before == None ==> rows == first
    requires before.Some? ==> exists e <- first :: before.value <= e.seqno
    ensures Page(rows, f, before, limit) == Slice(Descending(first, f, before), 0, limit)
  {
    if before.Some? {
      HitsIgnoreNewRows(first, rows, f, before.value);
    }
    PageIsPrefix(rows, f, before, limit);
  }

  lemma CursorIsListed(first: seq<Event>, f: ListFilter, before: Option<int>, limit: nat)
    requires Increasing(first) && limit >= 1 && Descending(first, f, before) != []
    ensures var listing := Descending(first, f, before);
            var page := Slice(listing, 0, limit);
            && page != []
            && Descending(first, f, Some(Last(page).seqno)) == listing[Min(limit, |listing|)..]
            && exists e <- first :: Last(page).seqno <= e.seqno
  {
    var listing := Descending(first, f, before);
    var n := Min(limit, |listing|);
    RestOfListing(first, f, before, n);
    assert listing[n - 1] in Hits(first, f, before);
    HitsAreSelected(first, f, before, listing[n - 1]);
  }

  /** The cursor is the `seqno` of some row of the first listing, or absent. */
  ghost predicate CursorIn(first: seq<Event>, rows: seq<Event>, before: Option<int>) {
    match before
    case None => rows == first
    case Some(b) => exists e <- first :: b <= e.seqno
  }

  /** What one call returns, and where its cursor points. */
  lemma PageAndCursor(first: seq<Event>, rows: seq<Event>, f: ListFilter, before: Option<int>, limit: nat)
    requires Increasing(rows) && first <= rows && limit >= 1 && CursorIn(first, rows, before)
    ensures var listing := Descending(first, f, before);
            var page := Page(rows, f, before, limit);
            && page == Slice(listing, 0, limit)
            && (page == [] ==> listing == [])
            && (page != [] ==>
                  && (exists e <- first :: Last(page).seqno <= e.seqno)
                  && Descending(first, f, Some(Last(page).seqno)) == listing[Min(limit, |listing|)..])
  {
    PageOfGrownLog(first, rows, f, before, limit);
    if Page(rows, f, before, limit) != [] {
      assert Increasing(first);
      CursorIsListed(first, f, before, limit);
    }
  }

  ghost predicate Grown(first: seq<Event>, logs: seq<seq<Event>>) {
    forall log <- logs :: Increasing(log) && first <= log
  }

  lemma GrownTail(first: seq<Event>, logs: seq<seq<Event>>)
    requires Grown(first, logs) && |logs| > 1
    ensures Grown(first, logs[1..])
  {
    assert forall log <- logs[1..] :: log in logs;
  }

  /** Page after page, with the remaining listing as the measure. */
  lemma {:induction false} WalkFrom(first: seq<Event>, logs: seq<seq<Event>>, f: ListFilter, before: Option<int>,
                                    limit: nat)
    requires |logs| > 0 && limit >= 1
    requires Grown(first, logs)
    requires CursorIn(first, logs[0], before)
    ensures LastPage(logs, f, before, limit) == Chunk(Descending(first, f, before), |logs| - 1, limit)
    decreases |logs|
  {
    var page := Page(logs[0], f, before, limit);
    PageAndCursor(first, logs[0], f, before, limit);
    if page == [] {
      ChunkOfNothing<Event>(|logs| - 1, limit);
    } else if |logs| > 1 {
      GrownTail(first, logs);
      WalkFrom(first, logs[1..], f, Some(Last(page).seqno), limit);
    }
  }

  lemma {:induction false} SnapshotsGrow(c: Codec, first: seq<Event>, s: State, gaps: seq<seq<Action>>)
    requires Inv(c, s) && first <= s.log
    ensures forall log <- Snapshots(c, s, gaps) :: Increasing(log) && first <= log
    decreases |gaps|
  {
    ValidPrefix(c, s.log, HolderRows(s));
    if gaps != [] {
      ExecKeepsInv(c, s, gaps[0]);
      LogOnlyGrows(c, s, gaps[0]);
      SnapshotsGrow(c, first, Exec(c, s, gaps[0]), gaps[1..]);
    }
  }

  lemma WalkFromStart(logs: seq<seq<Event>>, f: ListFilter, limit: nat)
    requires |logs| > 0 && limit >= 1
    requires forall log <- logs :: Increasing(log) && logs[0] <= log
    ensures var listing := Descending(logs[0], f, None);
            var page := LastPage(logs, f, None, limit);
            var skip := (|logs| - 1) * limit;
            && skip >= 0
            && page == Slice(listing, skip, skip + limit)
            && (page == [] <==> |listing| <= skip)
  {
    WalkFrom(logs[0], logs, f, None, limit);
    ChunkIsSlice(Descending(logs[0], f, None), |logs| - 1, limit);
  }

  /** Keyset paging is a stable snapshot. However the appenders interleave before
      and between the calls, call `k` (from 0) returns rows `k * limit` up to
      `(k + 1) * limit` of the matching events committed at the first call, newest
      first: the pages together are that listing, each event once, and call `k` is
      empty exactly when `k * limit` rows have exhausted it. */
  lemma WalkIsStableSnapshot(c: Codec, s: State, f: ListFilter, requested: Option<nat>, gaps: seq<seq<Action>>)
    requires Reachable(c, s)
    ensures var listing := Descending(s.log, f, None);
            var page := LastPage(Snapshots(c, s, gaps), f, None, PageSize(requested));
            var skip := |gaps| * PageSize(requested);
            && skip >= 0
            && page == Slice(listing, skip, skip + PageSize(requested))
            && (page == [] <==> |listing| <= skip)
  {
    WalkByLimit(c, s, f, PageSize(requested), gaps);
  }

  lemma WalkByLimit(c: Codec, s: State, f: ListFilter, limit: nat, gaps: seq<seq<Action>>)
    requires Reachable(c, s) && limit >= 1
    ensures var listing := Descending(s.log, f, None);
            var page := LastPage(Snapshots(c, s, gaps), f, None, limit);
            var skip := |gaps| * limit;
            skip >= 0 && page == Slice(listing, skip, skip + limit) && (page == [] <==> |listing| <= skip)
  {
    var history :| s == Exec(c, EMPTY, history);
    ReachableInv(c, history);
    SnapshotsGrow(c, s.log, s, gaps);
    WalkFromStart(Snapshots(c, s, gaps), f, limit);
  }

  /** The listing the walk reproduces: exactly the matching rows, each once,
      strictly descending, and as many as `count_filtered` reports. */
  lemma ListingIsComplete(c: Codec, s: State, f: ListFilter)
    requires Reachable(c, s)
    ensures var listing := Descending(s.log, f, None);
            && (forall e :: e in listing <==>
                  && e in s.log
                  && (f.actor.Some? ==> e.actorUserId == f.actor)
                  && (f.since.Some? ==> e.occurredAtMicros > f.since.value)
                  && (f.eventType.Some? ==> e.eventType == f.eventType.value)
                  && f.search(e))
            && (forall i, j :: 0 <= i < j < |listing| ==> listing[i].seqno > listing[j].seqno)
            && |listing| == CountFiltered(s.log, f)
  {
    CommittedLogIsAlwaysValid(c, s);
    var log := s.log;
    HitsIncreasing(log, f, None);
    CountIsHits(log, f);
    forall e ensures e in Descending(log, f, None) <==> e in log && Matches(f, e) {
      HitsAreSelected(log, f, None, e);
      ReverseMembers(Hits(log, f, None), e);
    }
  }

  lemma ReverseMembers<T>(s: seq<T>, x: T)
    ensures x in Reverse(s) <==> x in s
  {
    if x in s {
      var i :| 0 <= i < |s| && s[i] == x;
      assert Reverse(s)[|s| - 1 - i] == x;
    }
  }

  function CountFiltered(rows: seq<Event>, f: ListFilter): nat {
    if rows == [] then 0
    else (if Matches(f, rows[0]) then 1 else 0) + CountFiltered(rows[1..], f)
  }

  lemma {:induction false} CountIsHits(rows: seq<Event>, f: ListFilter)
    ensures CountFiltered(rows, f) == |Hits(rows, f, None)|
  {
    if rows != [] {
      CountIsHits(rows[1..], f);
    }
  }
}
