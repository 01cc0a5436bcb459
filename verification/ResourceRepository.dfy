/** The repository's statements on the table itself, each committed on its own, and
    the service call that validates a new resource. */
module ResourceRepository {
  import opened Prelude
  import opened Resources
  import opened ResourceSync

  datatype DbError = UniqueViolation | ForeignKeyViolation | SequenceExhausted

  datatype DbResult<T> = Done(value: T) | Refused(error: DbError)

  datatype Status = InvalidArgument | AlreadyExists | FailedPrecondition | Internal

  datatype Response<T> = Ok(value: T) | Error(status: Status)

  datatype App = App(enabled: bool, resourceTypes: seq<string>)

  /** A request field that should be a UUID: None when its text is not one. */
  type ParsedUuid = Option<Uuid>

  datatype CreateRequest = CreateRequest(
    appId: ParsedUuid,
    resourceType: string,
    appResourceId: ParsedUuid,
    parent: Option<ParsedUuid>,
    blob: Bytes,
    signature: Bytes,
    schemaVersion: int)

  predicate WellFormed(r: CreateRequest) {
    r.appId.Some? && r.appResourceId.Some? && (r.parent.Some? ==> r.parent.value.Some?)
  }

  predicate Enabled(apps: map<Uuid, App>, id: Uuid) {
    id in apps && apps[id].enabled
  }

  function Fields(r: CreateRequest, owner: Uuid): NewResource
    requires WellFormed(r)
  {
    NewResource(r.appId.value, r.resourceType, r.appResourceId.value,
                if r.parent.Some? then r.parent.value else None,
                owner, r.blob, r.signature, r.schemaVersion)
  }

  predicate KeyTaken(rows: Rows, f: NewResource) {
    exists id <- rows ::
      rows[id].appId == f.appId && rows[id].resourceType == f.resourceType && rows[id].appResourceId == f.appResourceId
  }

  /** A statement committed on its own: it allocates and publishes with nothing in
      between. */
  function Atomically(s: Server, w: Write): Server {
    Publish(Draw(s, w), w.id)
  }

  lemma AtomicallyKeepsInv(s: Server, w: Write)
    requires ServerInv(s) && s.inFlight == map[]
    ensures ServerInv(Atomically(s, w)) && Atomically(s, w).inFlight == map[]
  {
    DrawKeepsInv(s, w);
    PublishKeepsInv(Draw(s, w), w.id);
  }

  lemma CountingKeepsInv(s: Server)
    requires ServerInv(s) && s.inFlight == map[] && s.clock < I64_MAX
    ensures ServerInv(s.(clock := s.clock + 1))
  {}

  lemma AtomicInsert(s: Server, id: Uuid, f: NewResource, now: int)
    requires ServerInv(s) && s.inFlight == map[] && id !in s.rows && s.clock < I64_MAX
    ensures var v := Version(s, Insert(id, f, now), s.clock + 1);
            var counted := s.(clock := s.clock + 1);
            var after := Atomically(s, Insert(id, f, now));
            after == if KeyTaken(s.rows, f) then counted else counted.(rows := s.rows[id := v], log := s.log + [v])
  {
    var w := Insert(id, f, now);
    var v := Version(s, w, s.clock + 1);
    assert Draw(s, w).inFlight == map[id := v];
    assert map[id := v] - {id} == map[];
    assert Duplicate(s.rows, v) <==> KeyTaken(s.rows, f);
  }

  /** A new version of an existing row never meets the unique constraint. */
  lemma AtomicChange(s: Server, w: Write)
    requires ServerInv(s) && s.inFlight == map[] && !w.Insert? && Owned(s.rows, w.id, w.caller) && s.clock < I64_MAX
    ensures var v := Version(s, w, s.clock + 1);
            Atomically(s, w) == s.(clock := s.clock + 1, rows := s.rows[w.id := v], log := s.log + [v])
  {
    var v := Version(s, w, s.clock + 1);
    assert Draw(s, w).inFlight == map[w.id := v];
    assert map[w.id := v] - {w.id} == map[];
    assert SameKey(s.rows[w.id], v);
  }

  lemma AtomicNothing(s: Server, w: Write)
    requires s.inFlight == map[] && !(Applicable(s, w) && s.clock < I64_MAX)
    ensures Atomically(s, w) == s
  {}

  class Repository {
    var rows: Rows
    var clock: int
    ghost var log: seq<Row>

    ghost function Model(): Server
      reads this
    {
      Server(rows, clock, map[], log)
    }

    ghost predicate Valid()
      reads this
    {
      ServerInv(Model())
    }

    constructor ()
      ensures Valid() && Model() == EMPTY
    {
      rows, clock, log := map[], 0, [];
    }

    /** The column default draws the number first, then the unique index refuses a
        duplicate, then the foreign key a missing app: a refused insert has used up its
        number. */
    method Create(apps: set<Uuid>, f: NewResource, freshId: Uuid, now: int) returns (r: DbResult<Row>)
      requires Valid() && freshId !in rows
      modifies this
      ensures Valid()
      ensures r.Done? ==> Model() == Atomically(old(Model()), Insert(freshId, f, now))
                          && rows == old(rows)[freshId := r.value]
      ensures r.Refused? ==> Model() == old(Model()).(clock := Min(old(clock) + 1, I64_MAX))
      ensures r == Refused(SequenceExhausted) <==> old(clock) == 0x7fff_ffff_ffff_ffff
      ensures r == Refused(UniqueViolation) <==>
                && old(clock) < 0x7fff_ffff_ffff_ffff
                && exists id :: id in old(rows) && old(rows)[id].appId == f.appId &&
                     old(rows)[id].resourceType == f.resourceType && old(rows)[id].appResourceId == f.appResourceId
      ensures r == Refused(ForeignKeyViolation) ==> f.appId !in apps
      ensures r.Done? ==> f.appId in apps && clock == old(clock) + 1
      ensures r.Done? ==> r.value == Row(freshId, f.appId, f.resourceType, f.appResourceId, f.parent, f.owner, now, now,
                                         None, f.blob, f.signature, f.owner, f.schemaVersion, clock)
    {
      if clock == I64_MAX {
        return Refused(SequenceExhausted);
      }
      ghost var before := Model();
      CountingKeepsInv(before);
      clock := clock + 1;
      if KeyTaken(rows, f) {
        return Refused(UniqueViolation);
      }
      if f.appId !in apps {
        return Refused(ForeignKeyViolation);
      }
      AtomicallyKeepsInv(before, Insert(freshId, f, now));
      AtomicInsert(before, freshId, f, now);
      var row := Row(freshId, f.appId, f.resourceType, f.appResourceId, f.parent, f.owner, now, now, None,
                     f.blob, f.signature, f.owner, f.schemaVersion, clock);
      rows := rows[freshId := row];
      log := log + [row];
      assert Model() == Atomically(before, Insert(freshId, f, now));
      return Done(row);
    }

    method GetOwned(id: Uuid, owner: Uuid) returns (r: Option<Row>)
      ensures r == if id in rows && rows[id].owner == owner && rows[id].deletedAt == None then Some(rows[id]) else None
    {
      if id in rows && rows[id].owner == owner && rows[id].deletedAt == None {
        return Some(rows[id]);
      }
      return None;
    }

    method UpdateOwned(
        id: Uuid, owner: Uuid, blob: Bytes, signature: Bytes, schemaVersion: int, parent: Option<Uuid>, now: int)
      returns (r: DbResult<Option<Row>>)
      requires Valid()
      modifies this
      ensures Valid()
      ensures Model() == Atomically(old(Model()), Update(id, owner, blob, signature, schemaVersion, parent, now))
      ensures r == if !(id in old(rows) && old(rows)[id].owner == owner && old(rows)[id].deletedAt == None)
                   then Done(None)
                   else if old(clock) == 0x7fff_ffff_ffff_ffff then Refused(SequenceExhausted)
                   else Done(Some(rows[id]))
      ensures r.Done? && r.value.Some? ==>
                && clock == old(clock) + 1
                && rows == old(rows)[id := old(rows)[id].(
                     blob := blob, signature := signature, schemaVersion := schemaVersion, parent := parent,
                     lastModifiedBy := owner, updatedAt := now, changeSeq := old(clock) + 1)]
      ensures r == Done(None) || r.Refused? ==> rows == old(rows) && clock == old(clock)
    {
      ghost var before, w := Model(), Update(id, owner, blob, signature, schemaVersion, parent, now);
      AtomicallyKeepsInv(before, w);
      var found := GetOwned(id, owner);
      if found.None? {
        AtomicNothing(before, w);
        return Done(None);
      }
      if clock == I64_MAX {
        AtomicNothing(before, w);
        return Refused(SequenceExhausted);
      }
      AtomicChange(before, w);
      clock := clock + 1;
      var row := found.value.(blob := blob, signature := signature, schemaVersion := schemaVersion,
                              parent := parent, lastModifiedBy := owner, updatedAt := now, changeSeq := clock);
      rows := rows[id := row];
      log := log + [row];
      assert Model() == Atomically(before, w);
      return Done(Some(row));
    }

    method SoftDeleteOwned(id: Uuid, owner: Uuid, now: int) returns (r: DbResult<bool>)
      requires Valid()
      modifies this
      ensures Valid()
      ensures Model() == Atomically(old(Model()), SoftDelete(id, owner, now))
      ensures r == if !(id in old(rows) && old(rows)[id].owner == owner && old(rows)[id].deletedAt == None)
                   then Done(false)
                   else if old(clock) == 0x7fff_ffff_ffff_ffff then Refused(SequenceExhausted)
                   else Done(true)
      ensures r == Done(true) ==>
                && clock == old(clock) + 1
                && rows == old(rows)[id := old(rows)[id].(
                     deletedAt := Some(now), updatedAt := now, changeSeq := old(clock) + 1)]
      ensures r != Done(true) ==> rows == old(rows) && clock == old(clock)
    {
      ghost var before, w := Model(), SoftDelete(id, owner, now);
      AtomicallyKeepsInv(before, w);
      var found := GetOwned(id, owner);
      if found.None? {
        AtomicNothing(before, w);
        return Done(false);
      }
      if clock == I64_MAX {
        AtomicNothing(before, w);
        return Refused(SequenceExhausted);
      }
      AtomicChange(before, w);
      clock := clock + 1;
      var row := found.value.(deletedAt := Some(now), updatedAt := now, changeSeq := clock);
      rows := rows[id := row];
      log := log + [row];
      assert Model() == Atomically(before, w);
      return Done(true);
    }

    /** Exactly the oldest changes past the cursor, in order: everything in scope up to
        the last one returned, and nothing is held back below the limit. */
    method ListChanges(scope: Scope, since: int, limit: nat) returns (batch: seq<Row>)
      requires Valid()
      ensures batch == Resources.ListChanges(rows, scope, since, limit)
      ensures Ascending(batch) && |batch| <= limit
      ensures forall r <- batch ::
                && r in rows.Values && r.changeSeq > since && r.owner == scope.owner && r.appId == scope.appId
                && (scope.resourceType.None? || r.resourceType == scope.resourceType.value)
      ensures forall r <- rows.Values ::
                && r.changeSeq > since && r.owner == scope.owner && r.appId == scope.appId
                && (scope.resourceType.None? || r.resourceType == scope.resourceType.value)
                && (|batch| < limit || (batch != [] && r.changeSeq <= Last(batch).changeSeq))
                ==> r in batch
    {
      FeedIsExact(rows, scope, since);
      batch := Resources.ListChanges(rows, scope, since, limit);
      if batch != [] {
        forall r | r in Feed(rows, scope, since) && r.changeSeq <= Last(batch).changeSeq ensures r in batch {
          UpToLast(Feed(rows, scope, since), batch, r);
        }
      }
    }

    /** `apps` is what the check reads and `appsLater` what the insert finds: an app may
        be removed in between. A request refused before the insert changes nothing. */
    method CreateResource(
        apps: map<Uuid, App>, appsLater: set<Uuid>, blank: string -> bool,
        owner: Uuid, r: CreateRequest, freshId: Uuid, now: int) returns (response: Response<Row>)
      requires Valid() && freshId !in rows
      modifies this
      ensures Valid()
      ensures response.Ok? <==>
              && WellFormed(r) && !blank(r.resourceType)
              && Enabled(apps, r.appId.value) && r.resourceType in apps[r.appId.value].resourceTypes
              && r.appId.value in appsLater
              && old(clock) < I64_MAX && !KeyTaken(old(rows), Fields(r, owner))
      ensures response.Ok? ==> Model() == Atomically(old(Model()), Insert(freshId, Fields(r, owner), now))
                               && rows == old(rows)[freshId := response.value]
      ensures response.Ok? ==>
                && !blank(r.resourceType) && r.appId.Some? && r.appResourceId.Some?
                && (r.parent.Some? ==> r.parent.value.Some?)
                && r.appId.value in apps && apps[r.appId.value].enabled && r.appId.value in appsLater
                && r.resourceType in apps[r.appId.value].resourceTypes
                && response.value == Row(
                     freshId, r.appId.value, r.resourceType, r.appResourceId.value,
                     if r.parent.Some? then r.parent.value else None, owner, now, now, None,
                     r.blob, r.signature, owner, r.schemaVersion, old(clock) + 1)
      ensures response == Error(FailedPrecondition) ==>
                r.appId.Some? && !(r.appId.value in apps && apps[r.appId.value].enabled && r.appId.value in appsLater)
      ensures response.Error? ==> rows == old(rows) && log == old(log)
      ensures response == Error(InvalidArgument) <==>
              || blank(r.resourceType) || r.appId.None?
              || (Enabled(apps, r.appId.value) &&
                  (r.resourceType !in apps[r.appId.value].resourceTypes || !WellFormed(r)))
      ensures response == Error(AlreadyExists) <==>
              && WellFormed(r) && !blank(r.resourceType)
              && Enabled(apps, r.appId.value) && r.resourceType in apps[r.appId.value].resourceTypes
              && old(clock) < I64_MAX && KeyTaken(old(rows), Fields(r, owner))
    {
      if blank(r.resourceType) || r.appId.None? {
        return Error(InvalidArgument);
      }
      var appId := r.appId.value;
      if appId !in apps || !apps[appId].enabled {
        return Error(FailedPrecondition);
      }
      if r.resourceType !in apps[appId].resourceTypes {
        return Error(InvalidArgument);
      }
      if r.appResourceId.None? || (r.parent.Some? && r.parent.value.None?) {
        return Error(InvalidArgument);
      }
      var inserted := Create(appsLater, Fields(r, owner), freshId, now);
      match inserted {
        case Done(row) => return Ok(row);
        case Refused(UniqueViolation) => return Error(AlreadyExists);
        case Refused(ForeignKeyViolation) => return Error(FailedPrecondition);
        case Refused(SequenceExhausted) => return Error(Internal);
      }
    }
  }

  // ------------------------------------------------- a server without overlapping writes

  datatype Operation = Execute(w: Write) | Call(requested: nat)

  function Run(ops: seq<Operation>): seq<Action> {
    if ops == [] then []
    else (match ops[0]
          case Execute(w) => [Allocate(w), MakeVisible(w.id)]
          case Call(requested) => [Sync(requested)]) + Run(ops[1..])
  }

  lemma RunOnce(ops: seq<Operation>)
    requires ops != []
    ensures ops[0].Call? ==> Run(ops)[0] == Sync(ops[0].requested) && Run(ops)[1..] == Run(ops[1..])
    ensures ops[0].Execute? ==>
              && Run(ops)[0] == Allocate(ops[0].w) && Run(ops)[1..][0] == MakeVisible(ops[0].w.id)
              && Run(ops)[1..][1..] == Run(ops[1..])
  {}

  lemma {:induction false} AtomicRunsAreInOrder(w: World, ops: seq<Operation>)
    requires w.server.inFlight == map[]
    ensures InOrder(w, Run(ops))
    decreases |ops|
  {
    if ops != [] {
      RunOnce(ops);
      var run := Run(ops);
      var next := Step(w, run[0]);
      if ops[0].Execute? {
        var last := Step(next, run[1..][0]);
        assert last.server.inFlight == map[];
        AtomicRunsAreInOrder(last, ops[1..]);
        assert InOrder(next, run[1..]);
      } else {
        AtomicRunsAreInOrder(next, ops[1..]);
      }
    }
  }

  /** When statements do not overlap, sync is safe after every step of any sequence of
      statements and calls, and a client that starts empty and is told there is nothing
      new holds its part of the table. */
  lemma AtomicRunsConverge(scope: Scope, ops: seq<Operation>, requested: nat)
    ensures SafeThroughout(Start(scope), Run(ops))
    ensures var w := Exec(Start(scope), Run(ops));
            StreamChanges(w.server.rows, scope, w.client.cursor, requested) == []
            ==> w.client.replica == Project(w.server.rows, scope)
  {
    AtomicRunsAreInOrder(Start(scope), ops);
    StartInv(scope);
    InOrderIsNeverLate(Start(scope), Run(ops));
    SafeIffNeverLate(Start(scope), Run(ops));
    EmptyBatchMeansConverged(scope, Run(ops), requested);
  }
}
