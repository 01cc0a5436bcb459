/** The instance recovery code: one active row at a time, replaced by whoever
    presents the code it was installed with. Bootstrap and rotation transactions
    interleave statement by statement. */
module RecoveryRotation {
  import opened Prelude
  import Code = RecoveryCode

  /** A row of `auth.recovery_codes`; `rotated` is `rotated_at IS NOT NULL`. */
  datatype Row = Row(codeHash: Digest, rotated: bool)

  type TxId = nat

  datatype Request = Bootstrap(newHash: Digest) | Rotate(presented: Digest, newHash: Digest)

  /** Where a transaction stands. A claimed row has been marked rotated, and is
      locked, by the transaction; its new row is visible to nobody else. */
  datatype Phase =
    | Started
    | Waiting(row: Uuid)
    | Claimed(prev: Option<Uuid>)
    | Inserted(prev: Option<Uuid>, id: Uuid)

  datatype Tx = Tx(request: Request, phase: Phase)

  /** What a committed transaction did. `presented` is the hash of the code shown. */
  datatype Install = Install(id: Uuid, newHash: Digest, prev: Option<Uuid>, presented: Option<Digest>)

  /** `installs` remembers the committed transactions in order. */
  datatype State = State(rows: map<Uuid, Row>, txs: map<TxId, Tx>, installs: seq<Install>)

  const EMPTY := State(map[], map[], [])

  datatype Action =
    | Begin(t: TxId, request: Request)
    /** The claiming `UPDATE` finds `row` in its snapshot. */
    | Find(t: TxId, row: Uuid)
    /** It finds nothing: `rotate` answers `None`. */
    | FindNothing(t: TxId)
    /** It gets the row lock and looks at the row again. */
    | Recheck(t: TxId)
    /** The `INSERT` of the new row under a fresh id. */
    | InsertRow(t: TxId, id: Uuid)
    | Commit(t: TxId)
    | Rollback(t: TxId)

  predicate IsActive(s: State, id: Uuid) {
    id in s.rows && !s.rows[id].rotated
  }

  predicate Holds(tx: Tx, row: Uuid) {
    (tx.phase.Claimed? || tx.phase.Inserted?) && tx.phase.prev == Some(row)
  }

  predicate LockedByOther(s: State, t: TxId, row: Uuid) {
    exists o <- s.txs :: o != t && Holds(s.txs[o], row)
  }

  /** Another transaction has an active row in the unique index. */
  predicate InsertedByOther(s: State, t: TxId) {
    exists o <- s.txs :: o != t && s.txs[o].phase.Inserted?
  }

  predicate Matches(s: State, row: Uuid, hash: Digest) {
    IsActive(s, row) && s.rows[row].codeHash == hash
  }

  function SetPhase(s: State, t: TxId, phase: Phase): State
    requires t in s.txs
  {
    s.(txs := s.txs[t := s.txs[t].(phase := phase)])
  }

  function Drop(s: State, t: TxId): State {
    s.(txs := s.txs - {t})
  }

  function InsertNew(s: State, t: TxId, id: Uuid): State
    requires t in s.txs && s.txs[t].phase.Claimed?
  {
    var prev := s.txs[t].phase.prev;
    if InsertedByOther(s, t) || (exists v <- s.rows :: IsActive(s, v) && Some(v) != prev && LockedByOther(s, t, v))
    then s
    else if exists v <- s.rows :: IsActive(s, v) && Some(v) != prev then Drop(s, t)
    else SetPhase(s, t, Inserted(prev, id))
  }

  function Publish(s: State, t: TxId): State
    requires t in s.txs && s.txs[t].phase.Inserted?
  {
    var Tx(request, Inserted(prev, id)) := s.txs[t];
    var rows := if prev.Some? && prev.value in s.rows
                then s.rows[prev.value := s.rows[prev.value].(rotated := true)] else s.rows;
    var presented := if request.Rotate? then Some(request.presented) else None;
    State(rows[id := Row(request.newHash, false)], s.txs - {t},
          s.installs + [Install(id, request.newHash, prev, presented)])
  }

  ghost function Step(s: State, a: Action): State {
    match a
    case Begin(t, request) =>
      if t in s.txs then s
      else s.(txs := s.txs[t := Tx(request, if request.Bootstrap? then Claimed(None) else Started)])
    case Find(t, row) =>
      if t in s.txs && s.txs[t].phase.Started? && s.txs[t].request.Rotate?
         && Matches(s, row, s.txs[t].request.presented)
      then SetPhase(s, t, Waiting(row)) else s
    case FindNothing(t) =>
      if t in s.txs && s.txs[t].phase.Started? && s.txs[t].request.Rotate?
         && !exists row <- s.rows :: Matches(s, row, s.txs[t].request.presented)
      then Drop(s, t) else s
    case Recheck(t) =>
      if t in s.txs && s.txs[t].phase.Waiting? && !LockedByOther(s, t, s.txs[t].phase.row)
      then if IsActive(s, s.txs[t].phase.row) then SetPhase(s, t, Claimed(Some(s.txs[t].phase.row))) else Drop(s, t)
      else s
    case InsertRow(t, id) =>
      if t in s.txs && s.txs[t].phase.Claimed? && id !in s.rows then InsertNew(s, t, id) else s
    case Commit(t) =>
      if t in s.txs && s.txs[t].phase.Inserted? then Publish(s, t) else s
    case Rollback(t) => Drop(s, t)
  }

  ghost function Exec(s: State, actions: seq<Action>): State
    decreases |actions|
  {
    if actions == [] then s else Exec(Step(s, actions[0]), actions[1..])
  }

  ghost predicate Reachable(s: State) {
    exists actions :: s == Exec(EMPTY, actions)
  }

  // ----------------------------------------------------------------- invariant

  /** Each install after the first replaced its predecessor and was let in by the
      code that predecessor had put in place. */
  ghost predicate Linked(installs: seq<Install>) {
    forall i :: 0 <= i < |installs| ==> LinkAt(installs, i)
  }

  predicate LinkAt(installs: seq<Install>, i: nat)
    requires i < |installs|
  {
    if i == 0 then installs[i].prev == None && installs[i].presented == None
    else
      && installs[i].prev == Some(installs[i - 1].id)
      && installs[i].presented == Some(installs[i - 1].newHash)
  }

  /** The table is the history of installs, the last of them active. */
  ghost predicate RowsOk(s: State) {
    && (forall i :: 0 <= i < |s.installs| ==>
          s.installs[i].id in s.rows &&
          s.rows[s.installs[i].id] == Row(s.installs[i].newHash, i < |s.installs| - 1))
    && (forall id <- s.rows :: exists i :: 0 <= i < |s.installs| && s.installs[i].id == id)
  }

  ghost predicate TxOk(s: State, tx: Tx) {
    match tx.phase
    case Started => tx.request.Rotate?
    case Waiting(row) => tx.request.Rotate? && row in s.rows && s.rows[row].codeHash == tx.request.presented
    case Claimed(prev) =>
      && (prev.None? <==> tx.request.Bootstrap?)
      && (prev.Some? ==> Matches(s, prev.value, tx.request.presented))
    case Inserted(prev, id) =>
      && (prev.None? <==> tx.request.Bootstrap?)
      && (prev.Some? ==> Matches(s, prev.value, tx.request.presented))
      && id !in s.rows
      && (forall v <- s.rows :: IsActive(s, v) ==> Some(v) == prev)
  }

  ghost predicate Inv(s: State) {
    && Linked(s.installs) && RowsOk(s)
    && (forall t <- s.txs :: TxOk(s, s.txs[t]))
    && (forall t <- s.txs, o <- s.txs, row: Uuid :: t != o ==> !(Holds(s.txs[t], row) && Holds(s.txs[o], row)))
    && (forall t <- s.txs, o <- s.txs :: s.txs[t].phase.Inserted? && s.txs[o].phase.Inserted? ==> t == o)
  }

  /** The active row is the last one installed. */
  lemma ActiveIsLast(s: State, id: Uuid)
    requires RowsOk(s)
    ensures IsActive(s, id) <==> s.installs != [] && Last(s.installs).id == id
  {
    if id in s.rows {
      var i :| 0 <= i < |s.installs| && s.installs[i].id == id;
      assert s.rows[s.installs[i].id].rotated == (i < |s.installs| - 1);
    }
    if s.installs != [] {
      assert !s.rows[s.installs[|s.installs| - 1].id].rotated;
    }
  }

  lemma LinkedExtends(installs: seq<Install>, e: Install)
    requires Linked(installs)
    requires if installs == [] then e.prev == None && e.presented == None
             else e.prev == Some(Last(installs).id) && e.presented == Some(Last(installs).newHash)
    ensures Linked(installs + [e])
  {
    var all := installs + [e];
    forall i | 0 <= i < |all| ensures LinkAt(all, i) {
      assert i < |installs| ==> LinkAt(installs, i);
    }
  }

  /** Marking the last row rotated and adding one keeps table and history together. */
  lemma RowsExtend(s: State, s': State, e: Install)
    requires RowsOk(s) && e.id !in s.rows && s'.installs == s.installs + [e]
    requires s'.rows == (if s.installs == [] then s.rows
                         else s.rows[Last(s.installs).id := s.rows[Last(s.installs).id].(rotated := true)])
                        [e.id := Row(e.newHash, false)]
    ensures RowsOk(s')
  {
    var n := |s.installs|;
    forall i | 0 <= i < |s'.installs|
      ensures s'.installs[i].id in s'.rows && s'.rows[s'.installs[i].id] == Row(s'.installs[i].newHash, i < n)
    {
      if i < n {
        assert s'.installs[i] == s.installs[i] && s.installs[i].id in s.rows;
        if s.installs[i].id == Last(s.installs).id { assert s.rows[s.installs[n - 1].id].rotated == false; }
      }
    }
    forall id <- s'.rows ensures exists i :: 0 <= i < |s'.installs| && s'.installs[i].id == id {
      if id == e.id {
        assert s'.installs[n].id == id;
      } else {
        var i :| 0 <= i < n && s.installs[i].id == id;
        assert s'.installs[i].id == id;
      }
    }
  }

  /** A transaction that has inserted replaces exactly the last install. */
  lemma ReplacesLast(s: State, tx: Tx)
    requires RowsOk(s) && TxOk(s, tx) && tx.phase.Inserted?
    ensures if s.installs == [] then tx.phase.prev == None && tx.request.Bootstrap?
            else && tx.phase.prev == Some(Last(s.installs).id) && tx.request.Rotate?
                 && tx.request.presented == Last(s.installs).newHash
  {
    if s.installs != [] {
      var n := |s.installs| - 1;
      ActiveIsLast(s, Last(s.installs).id);
      assert s.rows[s.installs[n].id].codeHash == s.installs[n].newHash;
    } else if tx.phase.prev.Some? {
      ActiveIsLast(s, tx.phase.prev.value);
    }
  }

  lemma PublishKeepsHistory(s: State, t: TxId)
    requires Inv(s) && t in s.txs && s.txs[t].phase.Inserted?
    ensures Linked(Publish(s, t).installs) && RowsOk(Publish(s, t))
  {
    var s' := Publish(s, t);
    assert TxOk(s, s.txs[t]);
    ReplacesLast(s, s.txs[t]);
    LinkedExtends(s.installs, Last(s'.installs));
    if s.installs != [] { assert s.installs[|s.installs| - 1].id in s.rows; }
    RowsExtend(s, s', Last(s'.installs));
  }

  /** When one transaction publishes, nobody else can be holding a row. */
  lemma OthersHoldNothing(s: State, t: TxId, o: TxId)
    requires Inv(s) && t in s.txs && s.txs[t].phase.Inserted? && o in s.txs && o != t
    ensures s.txs[o].phase.Started? || s.txs[o].phase.Waiting? || s.txs[o].phase == Claimed(None)
  {
    assert TxOk(s, s.txs[t]) && TxOk(s, s.txs[o]);
    if s.txs[o].phase.Claimed? && s.txs[o].phase.prev.Some? {
      var row := s.txs[o].phase.prev.value;
      assert IsActive(s, row);
      assert Holds(s.txs[t], row) && Holds(s.txs[o], row);
    }
  }

  lemma PublishKeepsInv(s: State, t: TxId)
    requires Inv(s) && t in s.txs && s.txs[t].phase.Inserted?
    ensures Inv(Publish(s, t))
  {
    var s' := Publish(s, t);
    PublishKeepsHistory(s, t);
    forall o <- s'.txs ensures TxOk(s', s'.txs[o]) {
      assert TxOk(s, s.txs[o]);
      OthersHoldNothing(s, t, o);
    }
    forall o <- s'.txs, p <- s'.txs, row: Uuid | o != p ensures !(Holds(s'.txs[o], row) && Holds(s'.txs[p], row)) {
      OthersHoldNothing(s, t, o);
    }
  }

  /** A step that only moves one transaction. */
  lemma SetPhaseKeepsInv(s: State, t: TxId, phase: Phase)
    requires Inv(s) && t in s.txs
    requires TxOk(s, s.txs[t].(phase := phase))
    requires forall row: Uuid :: Holds(s.txs[t].(phase := phase), row) ==>
               Holds(s.txs[t], row) || !LockedByOther(s, t, row)
    requires phase.Inserted? ==> !InsertedByOther(s, t)
    ensures Inv(SetPhase(s, t, phase))
  {
  }

  lemma InsertKeepsInv(s: State, t: TxId, id: Uuid)
    requires Inv(s) && t in s.txs && s.txs[t].phase.Claimed? && id !in s.rows
    ensures Inv(InsertNew(s, t, id))
  {
    var prev := s.txs[t].phase.prev;
    var s' := InsertNew(s, t, id);
    assert TxOk(s, s.txs[t]);
    if s' != s && s' != Drop(s, t) {
      assert forall v <- s.rows :: IsActive(s, v) ==> Some(v) == prev;
      SetPhaseKeepsInv(s, t, Inserted(prev, id));
    }
  }

  lemma DropKeepsInv(s: State, t: TxId)
    requires Inv(s)
    ensures Inv(Drop(s, t))
  {
  }

  lemma BeginKeepsInv(s: State, t: TxId, request: Request)
    requires Inv(s)
    ensures Inv(Step(s, Begin(t, request)))
  {
  }

  lemma RecheckKeepsInv(s: State, t: TxId)
    requires Inv(s)
    ensures Inv(Step(s, Recheck(t)))
  {
    DropKeepsInv(s, t);
    if t in s.txs && s.txs[t].phase.Waiting? && !LockedByOther(s, t, s.txs[t].phase.row)
       && IsActive(s, s.txs[t].phase.row) {
      assert TxOk(s, s.txs[t]);
      SetPhaseKeepsInv(s, t, Claimed(Some(s.txs[t].phase.row)));
    }
  }

  lemma FindKeepsInv(s: State, t: TxId, row: Uuid)
    requires Inv(s)
    ensures Inv(Step(s, Find(t, row)))
  {
    if t in s.txs && s.txs[t].phase.Started? && s.txs[t].request.Rotate?
       && Matches(s, row, s.txs[t].request.presented) {
      SetPhaseKeepsInv(s, t, Waiting(row));
    }
  }

  lemma StepKeepsInv(s: State, a: Action)
    requires Inv(s)
    ensures Inv(Step(s, a))
  {
    match a
    case Begin(t, request) => BeginKeepsInv(s, t, request);
    case Find(t, row) => FindKeepsInv(s, t, row);
    case FindNothing(t) => DropKeepsInv(s, t);
    case Recheck(t) => RecheckKeepsInv(s, t);
    case InsertRow(t, id) =>
      if t in s.txs && s.txs[t].phase.Claimed? && id !in s.rows { InsertKeepsInv(s, t, id); }
    case Commit(t) =>
      if t in s.txs && s.txs[t].phase.Inserted? { PublishKeepsInv(s, t); }
    case Rollback(t) => DropKeepsInv(s, t);
  }

  lemma {:induction false} ExecKeepsInv(s: State, actions: seq<Action>)
    requires Inv(s)
    ensures Inv(Exec(s, actions))
    decreases |actions|
  {
    if actions != [] {
      StepKeepsInv(s, actions[0]);
      ExecKeepsInv(Step(s, actions[0]), actions[1..]);
    }
  }

  lemma ReachableInv(s: State)
    requires Reachable(s)
    ensures Inv(s)
  {
    var actions :| s == Exec(EMPTY, actions);
    ExecKeepsInv(EMPTY, actions);
  }

  // ---------------------------------------------------------------- main results

  /** At every point of every interleaving at most one committed row is active;
      exactly one is from the first commit on, and it carries the hash installed
      last. */
  lemma OneActiveRow(s: State)
    requires Reachable(s)
    ensures forall a <- s.rows, b <- s.rows :: IsActive(s, a) && IsActive(s, b) ==> a == b
    ensures (exists a <- s.rows :: IsActive(s, a)) <==> s.installs != []
    ensures s.installs != [] ==> Matches(s, Last(s.installs).id, Last(s.installs).newHash)
  {
    ReachableInv(s);
    forall a <- s.rows ensures IsActive(s, a) <==> s.installs != [] && Last(s.installs).id == a {
      ActiveIsLast(s, a);
    }
    if s.installs != [] {
      assert s.rows[s.installs[|s.installs| - 1].id] == Row(Last(s.installs).newHash, false);
    }
  }

  /** Rotation is a linear chain. The committed transactions are one bootstrap
      followed by rotations, each of which replaced the row before it and presented
      a code hashing to what that row installed. */
  lemma RotationIsLinear(s: State)
    requires Reachable(s)
    ensures forall i :: 0 <= i < |s.installs| ==>
              if i == 0 then s.installs[i].prev == None && s.installs[i].presented == None
              else && s.installs[i].prev == Some(s.installs[i - 1].id)
                   && s.installs[i].presented == Some(s.installs[i - 1].newHash)
    ensures forall i, j :: 0 <= i < j < |s.installs| ==>
              s.installs[i].prev != s.installs[j].prev && s.installs[i].id != s.installs[j].id
  {
    ReachableInv(s);
    forall i | 0 <= i < |s.installs|
      ensures if i == 0 then s.installs[i].prev == None && s.installs[i].presented == None
              else && s.installs[i].prev == Some(s.installs[i - 1].id)
                   && s.installs[i].presented == Some(s.installs[i - 1].newHash)
    {
      assert LinkAt(s.installs, i);
    }
    forall i, j | 0 <= i < j < |s.installs| ensures s.installs[i].id != s.installs[j].id {
      DistinctIds(s, i, j);
    }
    forall i, j | 0 <= i < j < |s.installs| ensures s.installs[i].prev != s.installs[j].prev {
      assert LinkAt(s.installs, j) && LinkAt(s.installs, i);
      assert s.installs[j].prev == Some(s.installs[j - 1].id);
      if i > 0 {
        assert s.installs[i].prev == Some(s.installs[i - 1].id);
        DistinctIds(s, i - 1, j - 1);
      }
    }
  }

  /** A new row never takes the id of an old one, so ids do not repeat. */
  lemma DistinctIds(s: State, i: nat, j: nat)
    requires Reachable(s) && i < j < |s.installs|
    ensures s.installs[i].id != s.installs[j].id
  {
    var actions :| s == Exec(EMPTY, actions);
    ExecIdsDistinct(EMPTY, actions);
  }

  ghost predicate IdsDistinct(s: State) {
    forall i, j :: 0 <= i < j < |s.installs| ==> s.installs[i].id != s.installs[j].id
  }

  lemma StepIdsDistinct(s: State, a: Action)
    requires Inv(s) && IdsDistinct(s)
    ensures IdsDistinct(Step(s, a))
  {
    if a.Commit? && a.t in s.txs && s.txs[a.t].phase.Inserted? {
      assert TxOk(s, s.txs[a.t]);
      assert forall i :: 0 <= i < |s.installs| ==> s.installs[i].id in s.rows;
    }
  }

  lemma {:induction false} ExecIdsDistinct(s: State, actions: seq<Action>)
    requires Inv(s) && IdsDistinct(s)
    ensures IdsDistinct(Exec(s, actions))
    decreases |actions|
  {
    if actions != [] {
      StepKeepsInv(s, actions[0]);
      StepIdsDistinct(s, actions[0]);
      ExecIdsDistinct(Step(s, actions[0]), actions[1..]);
    }
  }

  // ------------------------------------------------------------------ progress

  function Rank(phase: Phase): nat {
    match phase
    case Started => 0
    case Waiting(_) => 1
    case Claimed(_) => 2
    case Inserted(_, _) => 3
  }

  /** Statements run in the order of the handler, each once. */
  lemma PhasesAdvance(s: State, a: Action, t: TxId)
    requires t in s.txs && t in Step(s, a).txs && Step(s, a).txs[t] != s.txs[t]
    ensures Rank(Step(s, a).txs[t].phase) == Rank(s.txs[t].phase) + 1
    ensures Step(s, a).txs[t].request == s.txs[t].request
  {}

  /** `None` is answered only when no active row has the hash presented. */
  lemma NothingFoundIsTrue(s: State, t: TxId)
    requires t in s.txs && t !in Step(s, FindNothing(t)).txs
    ensures s.txs[t].request.Rotate?
    ensures forall row <- s.rows :: s.rows[row].rotated || s.rows[row].codeHash != s.txs[t].request.presented
  {}

  /** A claim is refused only when the row has been replaced meanwhile, and waits only for
      a transaction that has claimed that very row. */
  lemma RecheckWaitsForHolder(s: State, t: TxId)
    requires t in s.txs && s.txs[t].phase.Waiting?
    ensures Step(s, Recheck(t)) == s ==>
              exists o :: o in s.txs && o != t && !s.txs[o].phase.Started? && !s.txs[o].phase.Waiting?
                          && s.txs[o].phase.prev == Some(s.txs[t].phase.row)
    ensures t !in Step(s, Recheck(t)).txs ==> s.txs[t].phase.row !in s.rows || s.rows[s.txs[t].phase.row].rotated
  {
    var s' := Step(s, Recheck(t));
    assert LockedByOther(s, t, s.txs[t].phase.row) || t !in s'.txs || s'.txs[t].phase.Claimed?;
  }

  /** Some statement of `t` can run; an inserting one gets an id that is not taken. */
  ghost predicate CanMove(s: State, t: TxId, freshId: Uuid) {
    || (exists row :: Step(s, Find(t, row)) != s) || Step(s, FindNothing(t)) != s || Step(s, Recheck(t)) != s
    || Step(s, InsertRow(t, freshId)) != s || Step(s, Commit(t)) != s
  }

  lemma ClaimedMoves(s: State, t: TxId, freshId: Uuid)
    requires Inv(s) && t in s.txs && s.txs[t].phase.Claimed? && freshId !in s.rows
    requires forall o <- s.txs :: !s.txs[o].phase.Inserted?
    requires s.txs[t].phase.prev.None? ==> forall o <- s.txs :: s.txs[o].phase.Claimed? ==> s.txs[o].phase.prev.None?
    ensures Step(s, InsertRow(t, freshId)) != s
  {
    assert TxOk(s, s.txs[t]);
    var prev := s.txs[t].phase.prev;
    assert !InsertedByOther(s, t);
    if v :| v in s.rows && IsActive(s, v) && Some(v) != prev && LockedByOther(s, t, v) {
      ActiveIsLast(s, v);
      if prev.Some? { ActiveIsLast(s, prev.value); }
    }
    var s' := InsertNew(s, t, freshId);
    assert t !in s'.txs || s'.txs[t].phase.Inserted?;
  }

  lemma StartedMoves(s: State, t: TxId)
    requires Inv(s) && t in s.txs && s.txs[t].phase.Started?
    ensures (exists row :: Step(s, Find(t, row)) != s) || Step(s, FindNothing(t)) != s
  {
    assert TxOk(s, s.txs[t]);
    if row :| row in s.rows && Matches(s, row, s.txs[t].request.presented) {
      assert Step(s, Find(t, row)).txs[t].phase.Waiting?;
    } else {
      assert t !in Step(s, FindNothing(t)).txs;
    }
  }

  lemma WaitingMoves(s: State, t: TxId)
    requires t in s.txs && s.txs[t].phase.Waiting?
    requires forall o <- s.txs :: s.txs[o].phase.Started? || s.txs[o].phase.Waiting?
    ensures Step(s, Recheck(t)) != s
  {
    assert !LockedByOther(s, t, s.txs[t].phase.row);
    var s' := Step(s, Recheck(t));
    assert t !in s'.txs || s'.txs[t].phase.Claimed?;
  }

  /** Rotations and bootstraps never deadlock: in every reachable state with open
      transactions some statement of one of them can run. */
  lemma SomebodyCanRotate(s: State, freshId: Uuid)
    requires Reachable(s) && s.txs != map[] && freshId !in s.rows
    ensures exists t :: t in s.txs && CanMove(s, t, freshId)
  {
    ReachableInv(s);
    if t :| t in s.txs && s.txs[t].phase.Inserted? {
      assert t !in Step(s, Commit(t)).txs;
    } else if t :| t in s.txs && s.txs[t].phase.Claimed? && s.txs[t].phase.prev.Some? {
      ClaimedMoves(s, t, freshId);
    } else if t :| t in s.txs && s.txs[t].phase.Claimed? {
      ClaimedMoves(s, t, freshId);
    } else if t :| t in s.txs && s.txs[t].phase.Waiting? {
      WaitingMoves(s, t);
    } else {
      var t :| t in s.txs;
      StartedMoves(s, t);
    }
  }

  /** A table on which one transaction is open. */
  function Lone(s: State, t: TxId, r: Request, phase: Phase): State {
    s.(txs := map[t := Tx(r, phase)])
  }

  lemma FindAlone(s: State, t: TxId, r: Request, row: Uuid)
    requires r.Rotate? && Matches(s, row, r.presented)
    ensures Step(Lone(s, t, r, Started), Find(t, row)) == Lone(s, t, r, Waiting(row))
  {}

  lemma RecheckAlone(s: State, t: TxId, r: Request, row: Uuid)
    requires IsActive(s, row)
    ensures Step(Lone(s, t, r, Waiting(row)), Recheck(t)) == Lone(s, t, r, Claimed(Some(row)))
  {}

  lemma InsertAlone(s: State, t: TxId, r: Request, prev: Option<Uuid>, id: Uuid)
    requires id !in s.rows && forall v <- s.rows :: IsActive(s, v) ==> Some(v) == prev
    ensures Step(Lone(s, t, r, Claimed(prev)), InsertRow(t, id)) == Lone(s, t, r, Inserted(prev, id))
  {}

  lemma CommitAlone(s: State, t: TxId, r: Request, row: Uuid, id: Uuid)
    requires s.txs == map[] && r.Rotate? && row in s.rows
    ensures Step(Lone(s, t, r, Inserted(Some(row), id)), Commit(t))
         == State(s.rows[row := s.rows[row].(rotated := true)][id := Row(r.newHash, false)], map[],
                  s.installs + [Install(id, r.newHash, Some(row), Some(r.presented))])
  {
    assert map[t := Tx(r, Inserted(Some(row), id))] - {t} == map[];
  }

  /** A rotation with nobody else about, statement by statement. */
  lemma RotationAlone(s: State, t: TxId, r: Request, row: Uuid, id: Uuid)
    requires RowsOk(s) && s.txs == map[] && r.Rotate? && id !in s.rows && Matches(s, row, r.presented)
    ensures Exec(s, [Begin(t, r), Find(t, row), Recheck(t), InsertRow(t, id), Commit(t)])
         == State(s.rows[row := s.rows[row].(rotated := true)][id := Row(r.newHash, false)], map[],
                  s.installs + [Install(id, r.newHash, Some(row), Some(r.presented))])
  {
    var run := [Begin(t, r), Find(t, row), Recheck(t), InsertRow(t, id), Commit(t)];
    FindAlone(s, t, r, row);
    RecheckAlone(s, t, r, row);
    OnlyActive(s, row);
    InsertAlone(s, t, r, Some(row), id);
    CommitAlone(s, t, r, row, id);
    assert Step(s, run[0]) == Lone(s, t, r, Started);
    RunFive(s, run);
  }

  lemma OnlyActive(s: State, row: Uuid)
    requires RowsOk(s) && IsActive(s, row)
    ensures forall v <- s.rows :: IsActive(s, v) ==> v == row
  {
    ActiveIsLast(s, row);
    forall v <- s.rows ensures IsActive(s, v) ==> v == row { ActiveIsLast(s, v); }
  }

  /** A bootstrap on a table without an active row. */
  lemma BootstrapAlone(s: State, t: TxId, r: Request, id: Uuid)
    requires s.txs == map[] && r.Bootstrap? && id !in s.rows && forall v <- s.rows :: s.rows[v].rotated
    ensures Exec(s, [Begin(t, r), InsertRow(t, id), Commit(t)])
         == State(s.rows[id := Row(r.newHash, false)], map[], s.installs + [Install(id, r.newHash, None, None)])
  {
    var run := [Begin(t, r), InsertRow(t, id), Commit(t)];
    var s1 := s.(txs := map[t := Tx(r, Claimed(None))]);
    var s2 := s.(txs := map[t := Tx(r, Inserted(None, id))]);
    assert Step(s, run[0]) == s1;
    assert Step(s1, run[1]) == s2;
    assert s2.txs - {t} == map[];
    RunFrom(s, run, 0);
    RunFrom(s1, run, 1);
    RunFrom(s2, run, 2);
    assert run[0..] == run && run[3..] == [];
  }

  lemma RunFive(s: State, run: seq<Action>)
    requires |run| == 5
    ensures Exec(s, run) == Step(Step(Step(Step(Step(s, run[0]), run[1]), run[2]), run[3]), run[4])
  {
    RunFrom(s, run, 0);
    RunFrom(Step(s, run[0]), run, 1);
    RunFrom(Step(Step(s, run[0]), run[1]), run, 2);
    RunFrom(Step(Step(Step(s, run[0]), run[1]), run[2]), run, 3);
    RunFrom(Step(Step(Step(Step(s, run[0]), run[1]), run[2]), run[3]), run, 4);
    assert run[0..] == run && run[5..] == [];
  }

  lemma RunFrom(s: State, run: seq<Action>, i: nat)
    requires i < |run|
    ensures Exec(s, run[i..]) == Exec(Step(s, run[i]), run[i + 1..])
  {
    assert run[i..][1..] == run[i + 1..];
  }

  // ---------------------------------------------------------------- the storage

  /** The table as the repository functions change it, one call at a time. */
  class RecoveryCodes {
    const hash: string -> Digest
    var rows: map<Uuid, Row>
    ghost var installs: seq<Install>

    ghost function Model(): State
      reads this
    {
      State(rows, map[], installs)
    }

    ghost predicate Valid()
      reads this
    {
      Inv(Model()) && IdsDistinct(Model())
    }

    constructor (hash: string -> Digest)
      ensures Valid() && rows == map[] && installs == [] && this.hash == hash
    {
      this.hash := hash;
      rows, installs := map[], [];
    }

    /** `None` when the unique index finds an active row. */
    method BootstrapCode(rawCode: string, id: Uuid) returns (r: Option<Uuid>)
      requires Valid() && id !in rows
      modifies this
      ensures Valid() && (r == Some(id) <==> old(installs) == []) && (r.None? ==> unchanged(this))
      ensures r.Some? ==> rows == map[id := Row(hash(Code.Canonical(rawCode)), false)]
      ensures r.Some? ==> installs == [Install(id, hash(Code.Canonical(rawCode)), None, None)]
      ensures r.Some? ==>
                Model() == Exec(old(Model()), [Begin(0, Bootstrap(hash(Code.Canonical(rawCode)))),
                                               InsertRow(0, id), Commit(0)])
    {
      ghost var s := Model();
      var taken := exists v <- rows :: !rows[v].rotated;
      if installs != [] {
        ActiveIsLast(s, Last(installs).id);
      }
      assert taken <==> installs != [] by {
        if taken {
          var v :| v in rows && !rows[v].rotated;
          ActiveIsLast(s, v);
        }
      }
      if taken {
        return None;
      }
      var codeHash := Code.HashCode(hash, rawCode);
      BootstrapAlone(s, 0, Bootstrap(codeHash), id);
      ghost var s1 := s.(txs := map[0 := Tx(Bootstrap(codeHash), Inserted(None, id))]);
      PublishKeepsInv(s1, 0);
      StepIdsDistinct(s1, Commit(0));
      assert rows == map[];
      rows := rows[id := Row(codeHash, false)];
      installs := [Install(id, codeHash, None, None)];
      assert Publish(s1, 0) == Model();
      r := Some(id);
    }

    method Verify(presented: string) returns (r: Option<Uuid>)
      requires Valid()
      ensures r == if installs != [] && Last(installs).newHash == hash(Code.Canonical(presented))
                   then Some(Last(installs).id) else None
      ensures forall b: Code.Entropy :: installs != [] && Last(installs).newHash == hash(Code.Ungrouped(b)) ==>
                (r.Some? <==>
                 || Code.Spells(presented, Code.Grouped(Code.Ungrouped(b)))
                 || (Code.Canonical(presented) != Code.Ungrouped(b)
                     && hash(Code.Canonical(presented)) == hash(Code.Ungrouped(b))))
    {
      forall b: Code.Entropy
        ensures hash(Code.Canonical(presented)) == hash(Code.Ungrouped(b)) <==>
                || Code.Spells(presented, Code.Grouped(Code.Ungrouped(b)))
                || (Code.Canonical(presented) != Code.Ungrouped(b)
                    && hash(Code.Canonical(presented)) == hash(Code.Ungrouped(b)))
      {
        Code.HashAcceptsSpellings(hash, b, presented);
      }
      var codeHash := Code.HashCode(hash, presented);
      if installs != [] {
        ActiveIsLast(Model(), Last(installs).id);
        assert Model().installs[|installs| - 1].id in rows;
      }
      if exists v <- rows :: !rows[v].rotated && rows[v].codeHash == codeHash {
        var v :| v in rows && !rows[v].rotated && rows[v].codeHash == codeHash;
        ActiveIsLast(Model(), v);
        r := Some(v);
      } else {
        r := None;
      }
    }

    /** Possession of the current code is checked by the update itself. */
    method RotateCode(currentRaw: string, newRaw: string, newId: Uuid) returns (r: Option<(Uuid, Uuid)>)
      requires Valid() && newId !in rows
      modifies this
      ensures Valid() && (r.None? ==> unchanged(this))
      ensures r.Some? <==> old(installs) != [] && Last(old(installs)).newHash == hash(Code.Canonical(currentRaw))
      ensures forall b: Code.Entropy ::
                old(installs) != [] && Last(old(installs)).newHash == hash(Code.Ungrouped(b)) ==>
                (r.Some? <==>
                 || Code.Spells(currentRaw, Code.Grouped(Code.Ungrouped(b)))
                 || (Code.Canonical(currentRaw) != Code.Ungrouped(b)
                     && hash(Code.Canonical(currentRaw)) == hash(Code.Ungrouped(b))))
      ensures r.Some? ==>
                var prev := Last(old(installs)).id;
                && r.value == (newId, prev)
                && rows == old(rows)[prev := old(rows)[prev].(rotated := true)]
                                    [newId := Row(hash(Code.Canonical(newRaw)), false)]
                && installs == old(installs) + [Install(newId, hash(Code.Canonical(newRaw)), Some(prev),
                                                        Some(hash(Code.Canonical(currentRaw))))]
                && Model() == Exec(old(Model()), [
                     Begin(0, Rotate(hash(Code.Canonical(currentRaw)), hash(Code.Canonical(newRaw)))),
                     Find(0, prev), Recheck(0), InsertRow(0, newId), Commit(0)])
    {
      ghost var s := Model();
      var found := Verify(currentRaw);
      if found.None? {
        return None;
      }
      var prev := found.value;
      var newHash := Code.HashCode(hash, newRaw);
      LoneRotation(s, prev, Code.HashCode(hash, currentRaw), newHash, newId);
      RotationAlone(s, 0, Rotate(Code.HashCode(hash, currentRaw), newHash), prev, newId);
      rows := rows[prev := rows[prev].(rotated := true)];
      rows := rows[newId := Row(newHash, false)];
      installs := installs + [Install(newId, newHash, Some(prev), Some(Code.HashCode(hash, currentRaw)))];
      r := Some((newId, prev));
    }
  }

  /** What a rotation with no other transaction open commits. */
  lemma LoneRotation(s: State, prev: Uuid, presented: Digest, newHash: Digest, newId: Uuid)
    requires Inv(s) && IdsDistinct(s) && s.txs == map[] && newId !in s.rows
    requires s.installs != [] && Last(s.installs).id == prev && Last(s.installs).newHash == presented
    ensures Matches(s, prev, presented)
    ensures var s' := State(s.rows[prev := s.rows[prev].(rotated := true)][newId := Row(newHash, false)], map[],
                            s.installs + [Install(newId, newHash, Some(prev), Some(presented))]);
            Inv(s') && IdsDistinct(s')
  {
    ActiveIsLast(s, prev);
    assert s.rows[s.installs[|s.installs| - 1].id].codeHash == presented;
    var s1 := s.(txs := map[0 := Tx(Rotate(presented, newHash), Inserted(Some(prev), newId))]);
    OneTxInv(s, s1, prev, Rotate(presented, newHash), newId);
    PublishKeepsInv(s1, 0);
    StepIdsDistinct(s1, Commit(0));
    assert s1.txs - {0} == map[];
    assert Publish(s1, 0) == Step(s1, Commit(0));
    assert Publish(s1, 0) == State(s.rows[prev := s.rows[prev].(rotated := true)][newId := Row(newHash, false)], map[],
                                   s.installs + [Install(newId, newHash, Some(prev), Some(presented))]);
  }

  /** A lone transaction that has claimed the active row and inserted. */
  lemma OneTxInv(s: State, s': State, prev: Uuid, r: Request, id: Uuid)
    requires Inv(s) && s.txs == map[] && IsActive(s, prev)
    requires s' == s.(txs := map[0 := Tx(r, Inserted(Some(prev), id))])
    requires r.Rotate? && id !in s.rows && r.presented == s.rows[prev].codeHash
    ensures Inv(s')
  {
    forall v <- s.rows ensures IsActive(s, v) ==> v == prev {
      ActiveIsLast(s, v);
      ActiveIsLast(s, prev);
    }
    assert RowsOk(s');
  }
}
