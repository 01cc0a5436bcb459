/** App resources: a versioned table whose every write is stamped from one
    sequence, and the owner-scoped change feed read from it. */
module Resources {
  import opened Prelude

  datatype Row = Row(
    id: Uuid,
    appId: Uuid,
    resourceType: string,
    appResourceId: Uuid,
    parent: Option<Uuid>,
    owner: Uuid,
    createdAt: int,
    updatedAt: int,
    deletedAt: Option<int>,
    blob: Bytes,
    signature: Bytes,
    lastModifiedBy: Uuid,
    schemaVersion: int,
    changeSeq: int)

  type Rows = map<Uuid, Row>

  datatype NewResource = NewResource(
    appId: Uuid,
    resourceType: string,
    appResourceId: Uuid,
    parent: Option<Uuid>,
    owner: Uuid,
    blob: Bytes,
    signature: Bytes,
    schemaVersion: int)

  /** The three writing statements; `now` is the database clock, and the id of an
      insert is the one the database generates. */
  datatype Write =
    | Insert(id: Uuid, fields: NewResource, now: int)
    | Update(id: Uuid, caller: Uuid, blob: Bytes, signature: Bytes, schemaVersion: int, parent: Option<Uuid>, now: int)
    | SoftDelete(id: Uuid, caller: Uuid, now: int)

  /** A statement allocates its number, and holds its row, before its row version
      becomes visible: `inFlight` holds the versions in between. `log` lists the
      versions in the order in which they became visible. */
  datatype Server = Server(rows: Rows, clock: int, inFlight: Rows, log: seq<Row>)

  const EMPTY := Server(map[], 0, map[], [])

  predicate Owned(rows: Rows, id: Uuid, owner: Uuid) {
    id in rows && rows[id].owner == owner && rows[id].deletedAt.None?
  }

  /** Whether a statement finds its row, and finds it unlocked. */
  predicate Applicable(s: Server, w: Write) {
    && w.id !in s.inFlight
    && if w.Insert? then w.id !in s.rows else Owned(s.rows, w.id, w.caller)
  }

  function Version(s: Server, w: Write, seqNo: int): Row
    requires Applicable(s, w)
  {
    match w
    case Insert(id, f, now) =>
      Row(id, f.appId, f.resourceType, f.appResourceId, f.parent, f.owner, now, now, None,
          f.blob, f.signature, f.owner, f.schemaVersion, seqNo)
    case Update(id, caller, blob, signature, schemaVersion, parent, now) =>
      s.rows[id].(blob := blob, signature := signature, schemaVersion := schemaVersion, parent := parent,
                  lastModifiedBy := caller, updatedAt := now, changeSeq := seqNo)
    case SoftDelete(id, caller, now) =>
      s.rows[id].(deletedAt := Some(now), updatedAt := now, changeSeq := seqNo)
  }

  predicate SameKey(a: Row, b: Row) {
    a.appId == b.appId && a.resourceType == b.resourceType && a.appResourceId == b.appResourceId
  }

  /** The unique constraint on (app, type, app's own id). */
  predicate Duplicate(rows: Rows, v: Row) {
    exists id <- rows :: id != v.id && SameKey(rows[id], v)
  }

  function Drawn(s: Server, id: Uuid, v: Row): Server {
    s.(clock := s.clock + 1, inFlight := s.inFlight[id := v])
  }

  function Draw(s: Server, w: Write): Server {
    if Applicable(s, w) && s.clock < I64_MAX then Drawn(s, w.id, Version(s, w, s.clock + 1)) else s
  }

  function Drop(s: Server, id: Uuid): Server {
    s.(inFlight := s.inFlight - {id})
  }

  predicate Publishes(s: Server, id: Uuid) {
    id in s.inFlight && !Duplicate(s.rows, s.inFlight[id])
  }

  function Publish(s: Server, id: Uuid): Server {
    if Publishes(s, id) then
      var v := s.inFlight[id];
      Drop(s, id).(rows := s.rows[id := v], log := s.log + [v])
    else Drop(s, id)
  }

  // -------------------------------------------------------------------- change feed

  /** What one client asks for: its own resources of one app, of one type or all. */
  datatype Scope = Scope(owner: Uuid, appId: Uuid, resourceType: Option<string>)

  predicate InScope(scope: Scope, r: Row) {
    && r.owner == scope.owner
    && r.appId == scope.appId
    && (scope.resourceType.None? || r.resourceType == scope.resourceType.value)
  }

  function Project(rows: Rows, scope: Scope): Rows {
    map id | id in rows && InScope(scope, rows[id]) :: rows[id]
  }

  function Newer(rows: Rows, scope: Scope, since: int): Rows {
    map id | id in rows && InScope(scope, rows[id]) && rows[id].changeSeq > since :: rows[id]
  }

  predicate Before(rows: Rows, i: Uuid, j: Uuid)
    requires i in rows && j in rows
  {
    rows[i].changeSeq < rows[j].changeSeq || (rows[i].changeSeq == rows[j].changeSeq && i < j)
  }

  predicate IsFirst(rows: Rows, i: Uuid) {
    i in rows && forall j :: j in rows && j != i ==> Before(rows, i, j)
  }

  lemma ExtendFirst(rows: Rows, k: Uuid, i: Uuid)
    requires k in rows && IsFirst(rows - {k}, i)
    ensures IsFirst(rows, if Before(rows, k, i) then k else i)
  {
    var rest := rows - {k};
    forall j | j in rows && j != k ensures j == i || Before(rows, i, j) {
      assert j in rest;
      assert j != i ==> Before(rest, i, j);
    }
  }

  lemma {:induction false} HasFirst(rows: Rows)
    requires rows != map[]
    ensures exists i :: IsFirst(rows, i)
  {
    var k :| k in rows;
    if rows.Keys == {k} {
      assert IsFirst(rows, k);
    } else {
      var j :| j in rows && j != k;
      assert j in rows - {k};
      HasFirst(rows - {k});
      var i :| IsFirst(rows - {k}, i);
      ExtendFirst(rows, k, i);
    }
  }

  function First(rows: Rows): (i: Uuid)
    requires rows != map[]
    ensures IsFirst(rows, i)
  {
    HasFirst(rows);
    var i :| i in rows && IsFirst(rows, i);
    i
  }

  /** Rows by ascending `change_seq`; rows never share a number, so the tie break by
      id is never used. */
  function Listing(rows: Rows): seq<Row>
    decreases |rows|
  {
    if rows == map[] then []
    else
      var i := First(rows);
      assert (rows - {i}).Keys == rows.Keys - {i};
      [rows[i]] + Listing(rows - {i})
  }

  function Feed(rows: Rows, scope: Scope, since: int): seq<Row> {
    Listing(Newer(rows, scope, since))
  }

  function Take<T>(s: seq<T>, n: int): (r: seq<T>)
    ensures r <= s
  {
    if n <= 0 then [] else if n < |s| then s[..n] else s
  }

  function ListChanges(rows: Rows, scope: Scope, since: int, limit: int): seq<Row> {
    Take(Feed(rows, scope, since), limit)
  }

  const DEFAULT_CHANGES_LIMIT := 500
  const MAX_CHANGES_LIMIT := 2000

  function ClampChangesLimit(requested: nat): (limit: int)
    ensures 1 <= requested <= 2000 ==> limit == requested
    ensures requested > 2000 ==> limit == 2000
    ensures requested == 0 ==> limit == 500
  {
    if requested == 0 then DEFAULT_CHANGES_LIMIT else Min(requested, MAX_CHANGES_LIMIT)
  }

  /** A cursor that does not fit the column reads as the largest one that does. */
  function SinceOf(cursor: nat): (since: int)
    ensures cursor <= 0x7fff_ffff_ffff_ffff ==> since == cursor
    ensures cursor > 0x7fff_ffff_ffff_ffff ==> since == 0x7fff_ffff_ffff_ffff
  {
    if cursor <= I64_MAX then cursor else I64_MAX
  }

  function StreamChanges(rows: Rows, scope: Scope, cursor: nat, requested: nat): seq<Row> {
    ListChanges(rows, scope, SinceOf(cursor), ClampChangesLimit(requested))
  }

  // ------------------------------------------------------------------------- client

  datatype Client = Client(scope: Scope, cursor: nat, replica: Rows)

  function NewClient(scope: Scope): Client {
    Client(scope, 0, map[])
  }

  /** Each received row replaces the client's copy, tombstones included. */
  function ApplyAll(replica: Rows, batch: seq<Row>): Rows {
    if batch == [] then replica else ApplyAll(replica, Front(batch))[Last(batch).id := Last(batch)]
  }

  /** The number on the wire is unsigned. */
  function WireSeq(changeSeq: int): nat {
    if changeSeq >= 0 then changeSeq else 0
  }

  /** The largest number seen. */
  function Advance(cursor: nat, batch: seq<Row>): nat {
    if batch == [] then cursor else Max(Advance(cursor, Front(batch)), WireSeq(Last(batch).changeSeq))
  }

  function SyncOnce(c: Client, rows: Rows, requested: nat): Client {
    var batch := StreamChanges(rows, c.scope, c.cursor, requested);
    c.(cursor := Advance(c.cursor, batch), replica := ApplyAll(c.replica, batch))
  }

  // ------------------------------------------------------ what a listing is, in general

  ghost predicate Keyed(rows: Rows) {
    forall id <- rows :: rows[id].id == id
  }

  ghost predicate Distinct(rows: Rows) {
    forall i, j :: i in rows && j in rows && i != j ==> rows[i].changeSeq != rows[j].changeSeq
  }

  ghost predicate Ascending(s: seq<Row>) {
    forall i, j :: 0 <= i < j < |s| ==> s[i].changeSeq < s[j].changeSeq
  }

  lemma WithoutOne(rows: Rows, i: Uuid)
    requires i in rows
    ensures (rows - {i}).Keys == rows.Keys - {i} && |rows - {i}| == |rows| - 1
    ensures forall r :: r in rows.Values <==> r == rows[i] || r in (rows - {i}).Values
  {
    var rest := rows - {i};
    assert rest.Keys == rows.Keys - {i};
    assert |rest.Keys| == |rest| && |rows.Keys| == |rows|;
    forall r ensures r in rows.Values <==> r == rows[i] || r in rest.Values {
      if r in rows.Values && r != rows[i] {
        var k :| k in rows && rows[k] == r;
        assert k in rest;
      }
    }
  }

  lemma {:induction false} ListingMembers(rows: Rows)
    ensures forall r :: r in Listing(rows) <==> r in rows.Values
    ensures |Listing(rows)| == |rows|
    decreases |rows|
  {
    if rows != map[] {
      WithoutOne(rows, First(rows));
      ListingMembers(rows - {First(rows)});
    }
  }

  lemma FirstIsLeast(rows: Rows, r: Row)
    requires Distinct(rows) && rows != map[] && r in (rows - {First(rows)}).Values
    ensures rows[First(rows)].changeSeq < r.changeSeq
  {
    var j :| j in rows - {First(rows)} && rows[j] == r;
    assert Before(rows, First(rows), j);
  }

  lemma {:induction false} ListingAscends(rows: Rows)
    requires Distinct(rows)
    ensures Ascending(Listing(rows))
    decreases |rows|
  {
    if rows != map[] {
      var rest := rows - {First(rows)};
      WithoutOne(rows, First(rows));
      ListingAscends(rest);
      ListingMembers(rest);
      forall k | 0 <= k < |Listing(rest)| ensures rows[First(rows)].changeSeq < Listing(rest)[k].changeSeq {
        FirstIsLeast(rows, Listing(rest)[k]);
      }
    }
  }

  lemma HeadIsLeast(s: seq<Row>, r: Row)
    requires Ascending(s) && r in s
    ensures r == s[0] || s[0].changeSeq < r.changeSeq
  {}

  lemma SameTail(a: seq<Row>, b: seq<Row>)
    requires Ascending(a) && Ascending(b) && a != [] && b != [] && a[0] == b[0]
    requires forall r :: r in a <==> r in b
    ensures forall r :: r in a[1..] <==> r in b[1..]
  {
    forall r ensures r in a[1..] <==> r in b[1..] {
      InTail(a, r);
      InTail(b, r);
    }
  }

  /** Rows with distinct numbers have one ascending listing. */
  lemma {:induction false} AscendingIsUnique(a: seq<Row>, b: seq<Row>)
    requires Ascending(a) && Ascending(b)
    requires forall r :: r in a <==> r in b
    ensures a == b
  {
    HasMember(b);
    if a != [] {
      assert a[0] in b;
      assert b[0] in a;
      HeadIsLeast(a, b[0]);
      HeadIsLeast(b, a[0]);
      SameTail(a, b);
      AscendingIsUnique(a[1..], b[1..]);
      assert a == [a[0]] + a[1..] && b == [b[0]] + b[1..];
    }
  }

  lemma HasMember(s: seq<Row>)
    ensures s != [] ==> exists r :: r in s
  {
    if s != [] { assert s[0] in s; }
  }

  lemma InTail(s: seq<Row>, r: Row)
    requires Ascending(s) && s != []
    ensures r in s[1..] <==> r in s && r != s[0]
  {
    if r in s && r != s[0] {
      var i :| 0 <= i < |s| && s[i] == r;
      assert s[1..][i - 1] == r;
    }
  }

  /** The feed lists, oldest change first and each once, exactly the rows in scope
      whose number is past the cursor. */
  lemma FeedIsExact(rows: Rows, scope: Scope, since: int)
    requires Distinct(rows)
    ensures Ascending(Feed(rows, scope, since))
    ensures forall r :: r in Feed(rows, scope, since)
                   <==> && r in rows.Values && r.changeSeq > since
                        && r.owner == scope.owner && r.appId == scope.appId
                        && (scope.resourceType.None? || r.resourceType == scope.resourceType.value)
  {
    var newer := Newer(rows, scope, since);
    ListingMembers(newer);
    ListingAscends(newer);
    forall r ensures r in newer.Values <==> r in rows.Values && InScope(scope, r) && r.changeSeq > since {
      if r in rows.Values && InScope(scope, r) && r.changeSeq > since {
        var k :| k in rows && rows[k] == r;
        assert k in newer;
      }
    }
  }

  /** Reading on from the last row of a batch is reading on where the batch stopped. */
  lemma FeedContinues(rows: Rows, scope: Scope, since: int, n: nat)
    requires Distinct(rows)
    requires 0 < n <= |Feed(rows, scope, since)|
    ensures Feed(rows, scope, Feed(rows, scope, since)[n - 1].changeSeq) == Feed(rows, scope, since)[n..]
  {
    var feed := Feed(rows, scope, since);
    var at := feed[n - 1].changeSeq;
    FeedIsExact(rows, scope, since);
    FeedIsExact(rows, scope, at);
    assert feed[n - 1] in feed;
    forall r ensures r in feed[n..] <==> r in feed && r.changeSeq > at {
      if r in feed && r.changeSeq > at {
        var i :| 0 <= i < |feed| && feed[i] == r;
        assert feed[n..][i - n] == r;
      }
    }
    AscendingIsUnique(Feed(rows, scope, at), feed[n..]);
  }

  /** On an ascending batch the largest number seen is the last one. */
  lemma {:induction false} AdvanceIsLast(cursor: nat, batch: seq<Row>)
    requires Ascending(batch) && batch != []
    requires batch[0].changeSeq > cursor
    ensures Advance(cursor, batch) == Last(batch).changeSeq
  {
    if |batch| > 1 { AdvanceIsLast(cursor, Front(batch)); }
  }

  function Listed(rows: Rows, batch: seq<Row>): Rows {
    map id | id in rows && rows[id] in batch :: rows[id]
  }

  /** Applying rows of the table, in any order, copies those rows. */
  lemma {:induction false} ApplyCopies(replica: Rows, batch: seq<Row>, rows: Rows)
    requires Keyed(rows) && forall r <- batch :: r in rows.Values
    ensures ApplyAll(replica, batch) == replica + Listed(rows, batch)
  {
    if batch != [] {
      var rest, last := Front(batch), Last(batch);
      assert batch == rest + [last];
      ApplyCopies(replica, rest, rows);
      ListedAdds(rows, rest, last);
      PlusUpdate(replica, Listed(rows, rest), last);
    } else {
      assert replica + Listed(rows, batch) == replica;
    }
  }

  lemma ListedAdds(rows: Rows, batch: seq<Row>, r: Row)
    requires Keyed(rows) && r in rows.Values
    ensures Listed(rows, batch + [r]) == Listed(rows, batch)[r.id := r]
  {}

  lemma PlusUpdate(a: Rows, b: Rows, v: Row)
    ensures (a + b)[v.id := v] == a + b[v.id := v]
  {}
}
