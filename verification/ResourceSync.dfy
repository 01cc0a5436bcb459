/** Incremental sync: a client's replica against a server on which any number of
    writers allocate change numbers, publish or abandon row versions between the
    client's calls. */
module ResourceSync {
  import opened Prelude
  import opened Resources

  datatype World = World(server: Server, client: Client)

  datatype Action =
    | Allocate(w: Write)
    | MakeVisible(id: Uuid)
    | Abandon(id: Uuid)
    | Sync(requested: nat)

  function Step(w: World, a: Action): World {
    match a
    case Allocate(write) => w.(server := Draw(w.server, write))
    case MakeVisible(id) => w.(server := Publish(w.server, id))
    case Abandon(id) => w.(server := Drop(w.server, id))
    case Sync(requested) => w.(client := SyncOnce(w.client, w.server.rows, requested))
  }

  function Exec(w: World, run: seq<Action>): World
    decreases |run|
  {
    if run == [] then w else Exec(Step(w, run[0]), run[1..])
  }

  function Start(scope: Scope): World {
    World(EMPTY, NewClient(scope))
  }

  // -------------------------------------------------------------- server invariant

  /** A later version of a row keeps its owner and key and has a larger number: the
      number is drawn while the row is locked. */
  predicate Succeeds(earlier: Row, v: Row) {
    earlier.changeSeq < v.changeSeq && SameKey(earlier, v) && earlier.owner == v.owner
  }

  ghost predicate StampedUpTo(rows: Rows, clock: int) {
    forall id <- rows :: 1 <= rows[id].changeSeq <= clock
  }

  ghost predicate Apart(rows: Rows, inFlight: Rows) {
    forall i, j :: i in rows && j in inFlight ==> rows[i].changeSeq != inFlight[j].changeSeq
  }

  ghost predicate Successors(rows: Rows, inFlight: Rows) {
    forall id :: id in rows && id in inFlight ==> Succeeds(rows[id], inFlight[id])
  }

  /** The unique constraint. */
  ghost predicate KeysUnique(rows: Rows) {
    forall i, j :: i in rows && j in rows && i != j ==> !SameKey(rows[i], rows[j])
  }

  /** Every version of the log succeeds the version it replaced. */
  ghost predicate GoodLog(log: seq<Row>) {
    log != [] ==>
      var before, v := ApplyAll(map[], Front(log)), Last(log);
      GoodLog(Front(log)) && (v.id in before ==> Succeeds(before[v.id], v))
  }

  ghost predicate Numbers(rows: Rows, inFlight: Rows, clock: int) {
    && 0 <= clock <= I64_MAX
    && StampedUpTo(rows, clock) && StampedUpTo(inFlight, clock)
    && Distinct(rows) && Distinct(inFlight) && Apart(rows, inFlight)
  }

  ghost predicate ServerInv(s: Server) {
    && Keyed(s.rows) && Keyed(s.inFlight)
    && Numbers(s.rows, s.inFlight, s.clock)
    && Successors(s.rows, s.inFlight)
    && KeysUnique(s.rows)
    && s.rows == ApplyAll(map[], s.log) && GoodLog(s.log)
  }

  lemma NumbersDraw(rows: Rows, inFlight: Rows, clock: int, id: Uuid, v: Row)
    requires Numbers(rows, inFlight, clock) && clock < I64_MAX
    requires v.changeSeq == clock + 1 && id !in inFlight
    ensures Numbers(rows, inFlight[id := v], clock + 1)
  {}

  lemma NumbersPublish(rows: Rows, inFlight: Rows, clock: int, id: Uuid)
    requires Numbers(rows, inFlight, clock) && id in inFlight
    ensures Numbers(rows[id := inFlight[id]], inFlight - {id}, clock)
  {}

  lemma NumbersDrop(rows: Rows, inFlight: Rows, clock: int, id: Uuid)
    requires Numbers(rows, inFlight, clock)
    ensures Numbers(rows, inFlight - {id}, clock)
  {}

  lemma VersionSucceeds(s: Server, w: Write)
    requires ServerInv(s) && Applicable(s, w)
    ensures var v := Version(s, w, s.clock + 1);
            v.id == w.id && v.changeSeq == s.clock + 1 && (w.id in s.rows ==> Succeeds(s.rows[w.id], v))
  {}

  lemma DrawKeepsInv(s: Server, w: Write)
    requires ServerInv(s)
    ensures ServerInv(Draw(s, w))
  {
    if Applicable(s, w) && s.clock < I64_MAX {
      VersionSucceeds(s, w);
      var v := Version(s, w, s.clock + 1);
      DrawnKeepsInv(s, v);
      assert Draw(s, w) == Drawn(s, v.id, v);
    }
  }

  lemma DrawnKeepsInv(s: Server, v: Row)
    requires ServerInv(s) && s.clock < I64_MAX && v.changeSeq == s.clock + 1 && v.id !in s.inFlight
    requires v.id in s.rows ==> Succeeds(s.rows[v.id], v)
    ensures ServerInv(Drawn(s, v.id, v))
  {
    NumbersDraw(s.rows, s.inFlight, s.clock, v.id, v);
    InFlightAdds(s.rows, s.inFlight, v);
  }

  lemma InFlightAdds(rows: Rows, inFlight: Rows, v: Row)
    requires Keyed(inFlight) && Successors(rows, inFlight)
    requires v.id in rows ==> Succeeds(rows[v.id], v)
    ensures Keyed(inFlight[v.id := v]) && Successors(rows, inFlight[v.id := v])
  {}

  lemma PublishKeepsInv(s: Server, id: Uuid)
    requires ServerInv(s)
    ensures ServerInv(Publish(s, id))
  {
    NumbersDrop(s.rows, s.inFlight, s.clock, id);
    if Publishes(s, id) {
      var v := s.inFlight[id];
      NumbersPublish(s.rows, s.inFlight, s.clock, id);
      assert Front(s.log + [v]) == s.log;
      KeysStayUnique(s.rows, v);
    }
  }

  lemma KeysStayUnique(rows: Rows, v: Row)
    requires Keyed(rows) && KeysUnique(rows) && !Duplicate(rows, v)
    ensures KeysUnique(rows[v.id := v])
  {}

  // -------------------------------------------------------------- client invariant

  ghost predicate ClientInv(s: Server, c: Client) {
    && c.cursor <= s.clock
    && forall id <- c.replica ::
         id in s.rows && InScope(c.scope, s.rows[id]) && c.replica[id].changeSeq <= s.rows[id].changeSeq
  }

  ghost predicate Inv(w: World) {
    ServerInv(w.server) && ClientInv(w.server, w.client)
  }

  lemma StartInv(scope: Scope)
    ensures Inv(Start(scope)) && Safe(Start(scope))
  {}

  /** What a batch is: rows of the table, in scope, ascending from past the cursor, with
      nothing left out below its last number. */
  lemma BatchFacts(rows: Rows, c: Client, requested: nat)
    requires Distinct(rows) && c.cursor <= I64_MAX
    ensures var batch := StreamChanges(rows, c.scope, c.cursor, requested);
            && Ascending(batch)
            && (forall r <- batch :: r in rows.Values && InScope(c.scope, r) && r.changeSeq > c.cursor)
            && Advance(c.cursor, batch) == (if batch == [] then c.cursor else Last(batch).changeSeq)
            && (forall r <- rows.Values ::
                  InScope(c.scope, r) && c.cursor < r.changeSeq <= Advance(c.cursor, batch) ==> r in batch)
  {
    var feed, batch := Feed(rows, c.scope, c.cursor), StreamChanges(rows, c.scope, c.cursor, requested);
    FeedIsExact(rows, c.scope, c.cursor);
    if batch != [] {
      assert batch[0] in batch;
      AdvanceIsLast(c.cursor, batch);
      forall r <- rows.Values | InScope(c.scope, r) && c.cursor < r.changeSeq <= Last(batch).changeSeq
        ensures r in batch
      {
        assert r in feed;
        UpToLast(feed, batch, r);
      }
    }
  }

  lemma UpToLast(feed: seq<Row>, batch: seq<Row>, r: Row)
    requires Ascending(feed) && batch != [] && batch <= feed
    requires r in feed && r.changeSeq <= Last(batch).changeSeq
    ensures r in batch
  {
    var i :| 0 <= i < |feed| && feed[i] == r;
    assert Last(batch) == feed[|batch| - 1];
    assert i < |batch|;
    assert batch[i] == r;
  }

  /** The rows in scope numbered past one cursor and up to another. */
  function Between(rows: Rows, scope: Scope, from: int, to: int): Rows {
    map id | id in rows && InScope(scope, rows[id]) && from < rows[id].changeSeq <= to :: rows[id]
  }

  lemma InBatch(rows: Rows, c: Client, requested: nat, id: Uuid)
    requires Distinct(rows) && c.cursor <= I64_MAX && id in rows
    ensures rows[id] in StreamChanges(rows, c.scope, c.cursor, requested)
       <==> InScope(c.scope, rows[id]) && c.cursor < rows[id].changeSeq <= SyncOnce(c, rows, requested).cursor
  {
    var batch := StreamChanges(rows, c.scope, c.cursor, requested);
    BatchFacts(rows, c, requested);
    if rows[id] in batch {
      var i :| 0 <= i < |batch| && batch[i] == rows[id];
    }
  }

  lemma BatchIsBetween(rows: Rows, c: Client, requested: nat)
    requires Distinct(rows) && c.cursor <= I64_MAX
    ensures Listed(rows, StreamChanges(rows, c.scope, c.cursor, requested))
         == Between(rows, c.scope, c.cursor, SyncOnce(c, rows, requested).cursor)
  {
    forall id | id in rows {
      InBatch(rows, c, requested, id);
    }
  }

  lemma CursorMoves(rows: Rows, c: Client, requested: nat)
    requires Distinct(rows) && c.cursor <= I64_MAX
    ensures var d := SyncOnce(c, rows, requested);
            d.cursor == c.cursor || (d.cursor > c.cursor && exists id :: id in rows && rows[id].changeSeq == d.cursor)
  {
    var batch := StreamChanges(rows, c.scope, c.cursor, requested);
    BatchFacts(rows, c, requested);
    if batch != [] {
      assert Last(batch) in batch;
      var id :| id in rows && rows[id] == Last(batch);
    }
  }

  /** A call moves the replica by exactly the rows between the two cursors. */
  lemma SyncEffect(rows: Rows, c: Client, requested: nat)
    requires Distinct(rows) && Keyed(rows) && c.cursor <= I64_MAX
    ensures var d := SyncOnce(c, rows, requested);
            && d.replica == c.replica + Between(rows, c.scope, c.cursor, d.cursor)
            && d.cursor >= c.cursor
            && (d.cursor > c.cursor ==> exists id :: id in rows && rows[id].changeSeq == d.cursor)
  {
    CursorMoves(rows, c, requested);
    BatchIsBetween(rows, c, requested);
    BatchFacts(rows, c, requested);
    ApplyCopies(c.replica, StreamChanges(rows, c.scope, c.cursor, requested), rows);
  }

  lemma SyncKeepsInv(s: Server, c: Client, requested: nat)
    requires ServerInv(s) && ClientInv(s, c)
    ensures ClientInv(s, SyncOnce(c, s.rows, requested))
  {
    SyncEffect(s.rows, c, requested);
  }

  lemma StepKeepsInv(w: World, a: Action)
    requires Inv(w)
    ensures Inv(Step(w, a))
  {
    match a
    case Allocate(write) => DrawKeepsInv(w.server, write);
    case MakeVisible(id) => PublishKeepsInv(w.server, id);
    case Abandon(id) => NumbersDrop(w.server.rows, w.server.inFlight, w.server.clock, id);
    case Sync(requested) => SyncKeepsInv(w.server, w.client, requested);
  }

  lemma {:induction false} ExecKeepsInv(w: World, run: seq<Action>)
    requires Inv(w)
    ensures Inv(Exec(w, run))
    decreases |run|
  {
    if run != [] {
      StepKeepsInv(w, run[0]);
      ExecKeepsInv(Step(w, run[0]), run[1..]);
    }
  }

  // ------------------------------------------------------------------------ safety

  /** Every row in scope whose number the cursor has passed is in the replica as it is
      on the server, tombstones included. */
  ghost predicate Safe(w: World) {
    var s, c := w.server, w.client;
    forall id <- s.rows :: InScope(c.scope, s.rows[id]) && s.rows[id].changeSeq <= c.cursor ==>
      id in c.replica && c.replica[id] == s.rows[id]
  }

  /** The step makes a row visible whose number the cursor has already passed. */
  ghost predicate Late(w: World, a: Action) {
    && a.MakeVisible? && Publishes(w.server, a.id)
    && InScope(w.client.scope, w.server.inFlight[a.id])
    && w.server.inFlight[a.id].changeSeq <= w.client.cursor
  }

  lemma SyncKeepsSafe(w: World, requested: nat)
    requires Inv(w) && Safe(w)
    ensures Safe(Step(w, Sync(requested)))
  {
    SyncEffect(w.server.rows, w.client, requested);
  }

  /** One step: safety is lost by a late publication and by nothing else. */
  lemma StepIsSafeIffNotLate(w: World, a: Action)
    requires Inv(w) && Safe(w)
    ensures Safe(Step(w, a)) <==> !Late(w, a)
  {
    if a.Sync? {
      SyncKeepsSafe(w, a.requested);
    } else if a.MakeVisible? {
      var s, t := w.server, Step(w, a).server;
      if Publishes(s, a.id) {
        var v := s.inFlight[a.id];
        assert t.rows == s.rows[a.id := v];
        if Late(w, a) {
          assert a.id in w.client.replica ==> w.client.replica[a.id].changeSeq < v.changeSeq;
        }
      }
    }
  }

  ghost predicate SafeThroughout(w: World, run: seq<Action>)
    decreases |run|
  {
    Safe(w) && (run != [] ==> SafeThroughout(Step(w, run[0]), run[1..]))
  }

  ghost predicate NeverLate(w: World, run: seq<Action>)
    decreases |run|
  {
    run != [] ==> !Late(w, run[0]) && NeverLate(Step(w, run[0]), run[1..])
  }

  /** Over every run, with writers interleaved anywhere, sync is safe after every step
      exactly when no row becomes visible behind the cursor. */
  lemma {:induction false} SafeIffNeverLate(w: World, run: seq<Action>)
    requires Inv(w) && Safe(w)
    ensures SafeThroughout(w, run) <==> NeverLate(w, run)
    decreases |run|
  {
    if run != [] {
      StepIsSafeIffNotLate(w, run[0]);
      StepKeepsInv(w, run[0]);
      if Safe(Step(w, run[0])) {
        SafeIffNeverLate(Step(w, run[0]), run[1..]);
      }
    }
  }

  lemma {:induction false} SafeAtEnd(w: World, run: seq<Action>)
    requires SafeThroughout(w, run)
    ensures Safe(Exec(w, run))
    decreases |run|
  {
    if run != [] { SafeAtEnd(Step(w, run[0]), run[1..]); }
  }

  // ------------------------------------------------------------------ a single timeline

  /** Rows become visible in the order of their numbers. */
  ghost predicate InOrder(w: World, run: seq<Action>)
    decreases |run|
  {
    run != [] ==> OldestFirst(w, run[0]) && InOrder(Step(w, run[0]), run[1..])
  }

  ghost predicate OldestFirst(w: World, a: Action) {
    a.MakeVisible? && Publishes(w.server, a.id) ==>
      forall j <- w.server.inFlight :: w.server.inFlight[a.id].changeSeq <= w.server.inFlight[j].changeSeq
  }

  /** Numbers still in flight are ahead of everything visible. */
  ghost predicate Ahead(w: World) {
    && (forall j <- w.server.inFlight :: w.client.cursor < w.server.inFlight[j].changeSeq)
    && (forall i, j :: i in w.server.rows && j in w.server.inFlight ==>
          w.server.rows[i].changeSeq < w.server.inFlight[j].changeSeq)
  }

  lemma SyncKeepsAhead(w: World, requested: nat)
    requires Inv(w) && Ahead(w)
    ensures Ahead(Step(w, Sync(requested)))
  {
    SyncEffect(w.server.rows, w.client, requested);
  }

  lemma PublishKeepsAhead(w: World, id: Uuid)
    requires Inv(w) && Ahead(w) && OldestFirst(w, MakeVisible(id))
    ensures Ahead(Step(w, MakeVisible(id)))
  {
    var s := w.server;
    if Publishes(s, id) {
      OldestIsBelow(s.inFlight, id);
    }
  }

  lemma OldestIsBelow(inFlight: Rows, id: Uuid)
    requires Distinct(inFlight) && id in inFlight
    requires forall j <- inFlight :: inFlight[id].changeSeq <= inFlight[j].changeSeq
    ensures forall j <- inFlight - {id} :: inFlight[id].changeSeq < inFlight[j].changeSeq
  {}

  lemma StepKeepsAhead(w: World, a: Action)
    requires Inv(w) && Ahead(w) && OldestFirst(w, a)
    ensures Ahead(Step(w, a)) && !Late(w, a)
  {
    match a
    case Sync(requested) => SyncKeepsAhead(w, requested);
    case MakeVisible(id) => PublishKeepsAhead(w, id);
    case Allocate(_) =>
    case Abandon(_) =>
  }

  /** Publication in allocation order is enough, for every client at once. */
  lemma {:induction false} InOrderIsNeverLate(w: World, run: seq<Action>)
    requires Inv(w) && Ahead(w) && InOrder(w, run)
    ensures NeverLate(w, run)
    decreases |run|
  {
    if run != [] {
      StepKeepsAhead(w, run[0]);
      StepKeepsInv(w, run[0]);
      InOrderIsNeverLate(Step(w, run[0]), run[1..]);
    }
  }

  // ------------------------------------------------------------------- convergence

  lemma EmptyFeedMeansEqual(s: Server, c: Client)
    requires ServerInv(s) && ClientInv(s, c) && Safe(World(s, c))
    requires Feed(s.rows, c.scope, c.cursor) == []
    ensures c.replica == Project(s.rows, c.scope)
  {
    FeedIsExact(s.rows, c.scope, c.cursor);
    forall id | id in s.rows && InScope(c.scope, s.rows[id]) ensures id in c.replica && c.replica[id] == s.rows[id] {
      assert s.rows[id] in s.rows.Values;
    }
  }

  lemma InOrderConverges(scope: Scope, run: seq<Action>)
    requires InOrder(Start(scope), run)
    ensures var w := Exec(Start(scope), run);
            Feed(w.server.rows, scope, w.client.cursor) == [] && w.client.cursor <= I64_MAX
            ==> w.client.replica == Project(w.server.rows, scope)
    ensures Exec(Start(scope), run).client.cursor <= I64_MAX
  {
    var w := Exec(Start(scope), run);
    StartInv(scope);
    InOrderIsNeverLate(Start(scope), run);
    SafeIffNeverLate(Start(scope), run);
    SafeAtEnd(Start(scope), run);
    ExecKeepsInv(Start(scope), run);
    ExecKeepsScope(Start(scope), run);
    if Feed(w.server.rows, scope, w.client.cursor) == [] {
      EmptyFeedMeansEqual(w.server, w.client);
    }
  }

  lemma ProjectMembers(rows: Rows, scope: Scope)
    ensures forall id :: id in Project(rows, scope) <==>
              && id in rows && rows[id].owner == scope.owner && rows[id].appId == scope.appId
              && (scope.resourceType.None? || rows[id].resourceType == scope.resourceType.value)
  {}

  /** A client that starts empty, on any run that publishes in order: when a call
      returns nothing, the replica is the server's table narrowed to the client's
      scope, whatever limit it asked with. */
  lemma EmptyBatchMeansConverged(scope: Scope, run: seq<Action>, requested: nat)
    requires InOrder(Start(scope), run)
    ensures var w := Exec(Start(scope), run);
            StreamChanges(w.server.rows, scope, w.client.cursor, requested) == []
            ==> && w.client.replica == Project(w.server.rows, scope)
                && forall id :: id in w.client.replica <==>
                     && id in w.server.rows
                     && w.server.rows[id].owner == scope.owner && w.server.rows[id].appId == scope.appId
                     && (scope.resourceType.None? || w.server.rows[id].resourceType == scope.resourceType.value)
  {
    InOrderConverges(scope, run);
    ProjectMembers(Exec(Start(scope), run).server.rows, scope);
  }

  ghost predicate HoldsOnly(replica: Rows, scope: Scope) {
    forall id <- replica ::
      && replica[id].owner == scope.owner && replica[id].appId == scope.appId
      && (scope.resourceType.None? || replica[id].resourceType == scope.resourceType.value)
  }

  lemma SyncHoldsOnly(rows: Rows, c: Client, requested: nat)
    requires Distinct(rows) && Keyed(rows) && c.cursor <= I64_MAX && HoldsOnly(c.replica, c.scope)
    ensures HoldsOnly(SyncOnce(c, rows, requested).replica, c.scope)
  {
    SyncEffect(rows, c, requested);
  }

  ghost predicate HoldsOwn(w: World, scope: Scope) {
    w.client.scope == scope && Inv(w) && HoldsOnly(w.client.replica, scope)
  }

  lemma StepHoldsOwn(w: World, scope: Scope, a: Action)
    requires HoldsOwn(w, scope)
    ensures HoldsOwn(Step(w, a), scope)
  {
    if a.Sync? { SyncHoldsOnly(w.server.rows, w.client, a.requested); }
    StepKeepsInv(w, a);
  }

  lemma {:induction false} ExecHoldsOwn(w: World, scope: Scope, run: seq<Action>)
    requires HoldsOwn(w, scope)
    ensures HoldsOwn(Exec(w, run), scope)
    decreases |run|
  {
    if run != [] {
      StepHoldsOwn(w, scope, run[0]);
      ExecHoldsOwn(Step(w, run[0]), scope, run[1..]);
    }
  }

  /** Over every run, in order or not, a client only ever holds rows of its own owner and
      app, and of its own type if it asked for one. */
  lemma ReplicaIsOwn(scope: Scope, run: seq<Action>)
    ensures forall id :: id in Exec(Start(scope), run).client.replica ==>
              var r := Exec(Start(scope), run).client.replica[id];
              && r.owner == scope.owner && r.appId == scope.appId
              && (scope.resourceType.None? || r.resourceType == scope.resourceType.value)
  {
    StartInv(scope);
    ExecHoldsOwn(Start(scope), scope, run);
  }

  /** Clients of different owners never hold the same row. */
  lemma OwnersShareNothing(one: Scope, other: Scope, run: seq<Action>, otherRun: seq<Action>, i: Uuid, j: Uuid)
    requires one.owner != other.owner
    requires i in Exec(Start(one), run).client.replica && j in Exec(Start(other), otherRun).client.replica
    ensures Exec(Start(one), run).client.replica[i] != Exec(Start(other), otherRun).client.replica[j]
  {
    ReplicaIsOwn(one, run);
    ReplicaIsOwn(other, otherRun);
  }

  lemma {:induction false} ExecKeepsScope(w: World, run: seq<Action>)
    ensures Exec(w, run).client.scope == w.client.scope
    decreases |run|
  {
    if run != [] { ExecKeepsScope(Step(w, run[0]), run[1..]); }
  }

  // ------------------------------------------- what happens when publication is late

  /** Nothing in the statements orders publication by number. Two inserts whose numbers
      become visible in the opposite order, with a call in between: the first row is
      behind the cursor when it appears, and the next call returns nothing. */
  lemma SecondNumberFirst(scope: Scope, a: NewResource, b: NewResource)
    requires scope.owner == a.owner == b.owner && scope.appId == a.appId == b.appId && scope.resourceType.None?
    requires a.appResourceId != b.appResourceId
    ensures var run := [Allocate(Insert(1, a, 0)), Allocate(Insert(2, b, 0)), MakeVisible(2), Sync(0), MakeVisible(1)];
            var w := Exec(Start(scope), run);
            && 1 in Project(w.server.rows, scope)
            && 1 !in w.client.replica
            && StreamChanges(w.server.rows, scope, w.client.cursor, 0) == []
  {
    var run := [Allocate(Insert(1, a, 0)), Allocate(Insert(2, b, 0)), MakeVisible(2), Sync(0), MakeVisible(1)];
    var s := TwoInFlight(a, b);
    var w3 := World(Publish(s, 2), NewClient(scope));
    var rowB := s.inFlight[2];
    assert w3.server.rows == map[2 := rowB];
    SyncOfOne(w3.client, rowB);
    var w5 := World(Publish(w3.server, 1), SyncOnce(w3.client, w3.server.rows, 0));
    assert w5.server.rows == map[1 := s.inFlight[1], 2 := rowB];
    NothingNewer(w5.server.rows, scope, 2);
    ExecFive(Start(scope), run);
    assert w5 == Step(Step(w3, run[3]), run[4]);
  }

  function TwoInFlight(a: NewResource, b: NewResource): Server {
    Draw(Draw(EMPTY, Insert(1, a, 0)), Insert(2, b, 0))
  }

  lemma ExecFive(w: World, run: seq<Action>)
    requires |run| == 5
    ensures Exec(w, run) == Step(Step(Step(Step(Step(w, run[0]), run[1]), run[2]), run[3]), run[4])
  {
    ExecFrom(w, run, 0);
    ExecFrom(Step(w, run[0]), run, 1);
    ExecFrom(Step(Step(w, run[0]), run[1]), run, 2);
    ExecFrom(Step(Step(Step(w, run[0]), run[1]), run[2]), run, 3);
    ExecFrom(Step(Step(Step(Step(w, run[0]), run[1]), run[2]), run[3]), run, 4);
    assert run[0..] == run && run[5..] == [];
  }

  lemma ExecFrom(w: World, run: seq<Action>, i: nat)
    requires i < |run|
    ensures Exec(w, run[i..]) == Exec(Step(w, run[i]), run[i + 1..])
  {
    assert run[i..][1..] == run[i + 1..];
  }

  lemma SyncOfOne(c: Client, r: Row)
    requires InScope(c.scope, r) && c.cursor < r.changeSeq && c.cursor <= I64_MAX
    ensures SyncOnce(c, map[r.id := r], 0) == c.(cursor := r.changeSeq, replica := c.replica[r.id := r])
  {
    var rows := map[r.id := r];
    FeedIsExact(rows, c.scope, c.cursor);
    assert rows[r.id] in rows.Values;
    AscendingIsUnique(Feed(rows, c.scope, c.cursor), [r]);
    AdvanceIsLast(c.cursor, [r]);
    assert StreamChanges(rows, c.scope, c.cursor, 0) == [r];
    ApplyCopies(c.replica, [r], rows);
    assert Listed(rows, [r]) == rows;
    assert c.replica + rows == c.replica[r.id := r];
  }

  lemma NothingNewer(rows: Rows, scope: Scope, since: int)
    requires forall id <- rows :: rows[id].changeSeq <= since
    ensures Feed(rows, scope, since) == []
  {
    assert Newer(rows, scope, since) == map[];
  }

  function Syncs(requests: seq<nat>): (run: seq<Action>)
    ensures |run| == |requests|
  {
    if requests == [] then [] else [Sync(requests[0])] + Syncs(requests[1..])
  }

  ghost predicate Missed(w: World, id: Uuid) {
    var s, c := w.server, w.client;
    && id in s.rows
    && s.rows[id].changeSeq <= c.cursor
    && (id in c.replica ==> c.replica[id] != s.rows[id])
  }

  lemma SyncKeepsMissed(w: World, id: Uuid, requested: nat)
    requires Inv(w) && Missed(w, id)
    ensures Missed(Step(w, Sync(requested)), id)
  {
    SyncEffect(w.server.rows, w.client, requested);
  }

  ghost predicate Stuck(w: World, id: Uuid) {
    Inv(w) && Missed(w, id)
  }

  lemma SyncKeepsStuck(w: World, id: Uuid, requested: nat)
    requires Stuck(w, id)
    ensures Stuck(Step(w, Sync(requested)), id)
  {
    SyncKeepsMissed(w, id, requested);
    StepKeepsInv(w, Sync(requested));
  }

  /** A row missed that way stays missing however often the client calls: only another
      write to the row brings it back. */
  lemma {:induction false} MissedStaysMissed(w: World, id: Uuid, requests: seq<nat>)
    requires Inv(w) && id in w.server.rows && w.server.rows[id].changeSeq <= w.client.cursor
    requires id in w.client.replica ==> w.client.replica[id] != w.server.rows[id]
    ensures var end := Exec(w, Syncs(requests));
            && end.server == w.server
            && (id in end.client.replica ==> end.client.replica[id] != w.server.rows[id])
  {
    assert Stuck(w, id);
    StuckThroughout(w, id, requests);
  }

  lemma {:induction false} StuckThroughout(w: World, id: Uuid, requests: seq<nat>)
    requires Stuck(w, id)
    ensures Exec(w, Syncs(requests)).server == w.server
    ensures Stuck(Exec(w, Syncs(requests)), id)
    decreases |requests|
  {
    if requests != [] {
      SyncKeepsStuck(w, id, requests[0]);
      assert Syncs(requests) == [Sync(requests[0])] + Syncs(requests[1..]);
      StuckThroughout(Step(w, Sync(requests[0])), id, requests[1..]);
    }
  }
}
