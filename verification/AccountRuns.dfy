/** One handler at a time among transactions that others have open: what its statements,
    run without a break, come to. */
module AccountRuns {
  import opened Prelude
  import Audit = AuditLog
  import opened Accounts
  import opened AccountSafety

  // ------------------------------------------------------------------ the append call

  /** The row an append call of `tx` inserts when nothing is pending. */
  function NextEvent(env: Env, s: State, tx: AccountTx, now: Audit.Timestamp): Audit.Event {
    Audit.NewEvent(env.codec, s.audit.sequence + 1, Audit.TailHash(env.codec, s.audit.log), DraftOf(tx), now)
  }

  /** The four statements of the append call, and nothing else in between. */
  function Appended(env: Env, s: State, t: Audit.TxId, now: Audit.Timestamp): State
    requires t in s.txs && t in s.audit.txs
  {
    var e := NextEvent(env, s, s.txs[t], now);
    s.(audit := Audit.State(s.audit.log, s.audit.sequence + 1, Some(t), s.audit.txs[t := Audit.Tx(Audit.Idle, [e])]),
       txs := s.txs[t := s.txs[t].(stage := Committing)])
  }

  ghost predicate ReadyToAppend(s: State, t: Audit.TxId) {
    && t in s.txs && s.txs[t].stage == Appending
    && t in s.audit.txs && s.audit.txs[t] == Audit.Tx(Audit.Idle, [])
    && (s.audit.holder == None || s.audit.holder == Some(t))
    && s.audit.sequence < I64_MAX
  }

  /** A log whose lock `t` holds, `t` being at `phase` with nothing inserted yet. */
  function At(q: Audit.State, t: Audit.TxId, phase: Audit.Phase, sequence: int): Audit.State {
    Audit.State(q.log, sequence, Some(t), q.txs[t := Audit.Tx(phase, [])])
  }

  ghost predicate MayAppend(q: Audit.State, t: Audit.TxId) {
    && t in q.txs && q.txs[t] == Audit.Tx(Audit.Idle, [])
    && (q.holder == None || q.holder == Some(t)) && q.sequence < I64_MAX
  }

  lemma AuditLock(c: Audit.Codec, q: Audit.State, t: Audit.TxId)
    requires MayAppend(q, t)
    ensures Audit.Step(c, q, Audit.AcquireLock(t)) == At(q, t, Audit.Locked, q.sequence)
  {}

  lemma AuditDraw(c: Audit.Codec, q: Audit.State, t: Audit.TxId)
    requires MayAppend(q, t)
    ensures Audit.Step(c, At(q, t, Audit.Locked, q.sequence), Audit.NextVal(t))
         == At(q, t, Audit.Drawn(q.sequence + 1), q.sequence + 1)
  {}

  lemma AuditRead(c: Audit.Codec, q: Audit.State, t: Audit.TxId, n: int)
    ensures Audit.Step(c, At(q, t, Audit.Drawn(n), n), Audit.ReadTail(t))
         == At(q, t, Audit.TailRead(n, Audit.TailHash(c, q.log)), n)
  {
    assert q.log + [] == q.log;
  }

  lemma AuditInsert(c: Audit.Codec, q: Audit.State, t: Audit.TxId, n: int, h: Bytes, draft: Audit.Draft,
                    now: Audit.Timestamp)
    ensures var e := Audit.NewEvent(c, n, h, draft, now);
            var q' := Audit.Step(c, At(q, t, Audit.TailRead(n, h), n), Audit.Insert(t, draft, now));
            q' == Audit.State(q.log, n, Some(t), q.txs[t := Audit.Tx(Audit.Idle, [e])])
  {
    assert [] + [Audit.NewEvent(c, n, h, draft, now)] == [Audit.NewEvent(c, n, h, draft, now)];
  }

  lemma RunAppend(env: Env, s: State, t: Audit.TxId, now: Audit.Timestamp)
    requires t in s.txs && s.txs[t].stage == Appending && t in s.audit.txs && !s.audit.txs[t].phase.TailRead?
    ensures Step(env, s, Run(t, now)) == s.(audit := Audit.Step(env.codec, s.audit, AppendStatement(s, t, now)))
  {
    assert s.txs[t := s.txs[t].(stage := Appending)] == s.txs;
  }

  lemma LockRun(env: Env, s: State, t: Audit.TxId, now: Audit.Timestamp)
    requires ReadyToAppend(s, t)
    ensures Step(env, s, Run(t, now)) == s.(audit := At(s.audit, t, Audit.Locked, s.audit.sequence))
  {
    AuditLock(env.codec, s.audit, t);
    RunAppend(env, s, t, now);
  }

  lemma DrawRun(env: Env, s: State, t: Audit.TxId, now: Audit.Timestamp)
    requires ReadyToAppend(s, t)
    ensures var n := s.audit.sequence + 1;
            var locked := s.(audit := At(s.audit, t, Audit.Locked, s.audit.sequence));
            Step(env, locked, Run(t, now)) == s.(audit := At(s.audit, t, Audit.Drawn(n), n))
  {
    AuditDraw(env.codec, s.audit, t);
    RunAppend(env, s.(audit := At(s.audit, t, Audit.Locked, s.audit.sequence)), t, now);
  }

  lemma ReadRun(env: Env, s: State, t: Audit.TxId, now: Audit.Timestamp)
    requires ReadyToAppend(s, t)
    ensures var n := s.audit.sequence + 1;
            var drawn := s.(audit := At(s.audit, t, Audit.Drawn(n), n));
            var tail := Audit.TailHash(env.codec, s.audit.log);
            Step(env, drawn, Run(t, now)) == s.(audit := At(s.audit, t, Audit.TailRead(n, tail), n))
  {
    var n := s.audit.sequence + 1;
    AuditRead(env.codec, s.audit, t, n);
    RunAppend(env, s.(audit := At(s.audit, t, Audit.Drawn(n), n)), t, now);
  }

  lemma InsertRun(env: Env, s: State, t: Audit.TxId, now: Audit.Timestamp)
    requires ReadyToAppend(s, t)
    ensures var n := s.audit.sequence + 1;
            var read := s.(audit := At(s.audit, t, Audit.TailRead(n, Audit.TailHash(env.codec, s.audit.log)), n));
            Step(env, read, Run(t, now)) == Appended(env, s, t, now)
  {
    var q, n, tail := s.audit, s.audit.sequence + 1, Audit.TailHash(env.codec, s.audit.log);
    AuditInsert(env.codec, q, t, n, tail, DraftOf(s.txs[t]), now);
    LastRun(env, s.(audit := At(q, t, Audit.TailRead(n, tail), n)), t, now);
  }

  lemma AppendedIsFourRuns(env: Env, s: State, t: Audit.TxId, now: Audit.Timestamp)
    requires ReadyToAppend(s, t)
    ensures var run := Run(t, now);
            Step(env, Step(env, Step(env, Step(env, s, run), run), run), run) == Appended(env, s, t, now)
  {
    LockRun(env, s, t, now);
    DrawRun(env, s, t, now);
    ReadRun(env, s, t, now);
    InsertRun(env, s, t, now);
  }

  lemma LastRun(env: Env, s: State, t: Audit.TxId, now: Audit.Timestamp)
    requires t in s.txs && s.txs[t].stage == Appending && t in s.audit.txs && s.audit.txs[t].phase.TailRead?
    ensures Step(env, s, Run(t, now))
         == s.(audit := Audit.Step(env.codec, s.audit, Audit.Insert(t, DraftOf(s.txs[t]), now)),
               txs := s.txs[t := s.txs[t].(stage := Committing)])
  {}

  lemma AppendedKeepsInv(env: Env, s: State, t: Audit.TxId, now: Audit.Timestamp)
    requires Inv(env, s) && ReadyToAppend(s, t)
    ensures Inv(env, Appended(env, s, t, now))
  {
    var run := Run(t, now);
    AppendedIsFourRuns(env, s, t, now);
    StepKeepsInv(env, s, run);
    StepKeepsInv(env, Step(env, s, run), run);
    StepKeepsInv(env, Step(env, Step(env, s, run), run), run);
    StepKeepsInv(env, Step(env, Step(env, Step(env, s, run), run), run), run);
  }

  // ----------------------------------------------------- a transaction among the others

  ghost predicate Fresh(s: State, t: Audit.TxId) {
    t !in s.txs && t !in s.audit.txs && s.audit.holder != Some(t)
  }

  /** `s` with one more transaction, which has not begun to append. */
  function With(s: State, t: Audit.TxId, tx: AccountTx): State {
    s.(txs := s.txs[t := tx], audit := s.audit.(txs := s.audit.txs[t := Audit.Tx(Audit.Idle, [])]))
  }

  lemma StartWith(env: Env, s: State, t: Audit.TxId, r: Request)
    requires MayStart(s, t, r)
    ensures Step(env, s, Start(t, r)) == With(s, t, AccountTx(r, FirstStage(r), None, None, None))
  {}

  lemma AbortWith(env: Env, s: State, t: Audit.TxId, tx: AccountTx)
    requires Fresh(s, t)
    ensures AbortTx(env, With(s, t, tx), t) == s
  {
    assert s.txs[t := tx] - {t} == s.txs;
    assert s.audit.txs[t := Audit.Tx(Audit.Idle, [])] - {t} == s.audit.txs;
  }

  lemma WithTwice(s: State, t: Audit.TxId, tx: AccountTx, next: AccountTx)
    ensures With(s, t, tx).(txs := With(s, t, tx).txs[t := next]) == With(s, t, next)
  {}

  lemma ClaimWith(env: Env, s: State, t: Audit.TxId, tx: AccountTx)
    requires Fresh(s, t) && NewUserRow(s.tables, tx.request).Some?
    ensures var stage := if tx.request.ChangeName? then Appending else PassIndex;
            var claimed := With(s, t, tx.(userRow := NewUserRow(s.tables, tx.request), stage := stage));
            var s' := ClaimUserRow(env, With(s, t, tx), t);
            s' == if UserRowLocked(s, t, tx.request.user) then With(s, t, tx) else claimed
  {
    WithTwice(s, t, tx, tx.(userRow := NewUserRow(s.tables, tx.request),
                            stage := if tx.request.ChangeName? then Appending else PassIndex));
    SameUserLock(s, t, tx, tx.request.user);
  }

  lemma PassWith(env: Env, s: State, t: Audit.TxId, tx: AccountTx)
    requires Fresh(s, t) && tx.userRow.Some?
    ensures var u, email := tx.request.user, tx.userRow.value.email;
            var passed := With(s, t, tx.(stage := if TouchesSecrets(tx.request) then WriteCredentials else Appending));
            var waiting := if EmailContended(env, s, t, u, email) then With(s, t, tx) else passed;
            var s' := PassEmailIndex(env, With(s, t, tx), t);
            s' == if EmailTaken(env, s, t, u, email) then s else waiting
  {
    var u, email := tx.request.user, tx.userRow.value.email;
    AbortWith(env, s, t, tx);
    WithTwice(s, t, tx, tx.(stage := if TouchesSecrets(tx.request) then WriteCredentials else Appending));
    SameLocks(env, s, t, tx, u, email);
  }

  lemma SameUserLock(s: State, t: Audit.TxId, tx: AccountTx, v: Uuid)
    ensures UserRowLocked(With(s, t, tx), t, v) == UserRowLocked(s, t, v)
  {
    if UserRowLocked(s, t, v) {
      var o :| o in s.txs && o != t && s.txs[o].userRow.Some? && s.txs[o].request.user == v;
      assert o in With(s, t, tx).txs;
    }
  }

  lemma SameCredentialLock(s: State, t: Audit.TxId, tx: AccountTx, v: Uuid)
    ensures CredentialLocked(With(s, t, tx), t, v) == CredentialLocked(s, t, v)
  {
    if CredentialLocked(s, t, v) {
      var o :| o in s.txs && o != t && s.txs[o].credential.Some? && s.txs[o].request.user == v;
      assert o in With(s, t, tx).txs;
    }
  }

  lemma SameLocks(env: Env, s: State, t: Audit.TxId, tx: AccountTx, u: Uuid, email: string)
    ensures EmailTaken(env, With(s, t, tx), t, u, email) == EmailTaken(env, s, t, u, email)
    ensures EmailContended(env, With(s, t, tx), t, u, email) == EmailContended(env, s, t, u, email)
  {
    forall v ensures UserRowLocked(With(s, t, tx), t, v) == UserRowLocked(s, t, v) {
      SameUserLock(s, t, tx, v);
    }
    if EmailContended(env, s, t, u, email) {
      var o :| o in s.txs && o != t && Contends(env, s.tables.users, s.txs[o], u, email);
      assert o in With(s, t, tx).txs;
    }
  }

  lemma CredentialWith(env: Env, s: State, t: Audit.TxId, tx: AccountTx)
    requires Fresh(s, t) && NewCredential(s.tables, tx.request).Some?
    ensures StoreCredential(env, With(s, t, tx), t)
         == if CredentialLocked(s, t, tx.request.user) then With(s, t, tx)
            else With(s, t, tx.(credential := NewCredential(s.tables, tx.request), stage := WriteKeys))
  {
    WithTwice(s, t, tx, tx.(credential := NewCredential(s.tables, tx.request), stage := WriteKeys));
    SameCredentialLock(s, t, tx, tx.request.user);
  }

  lemma KeysWith(env: Env, s: State, t: Audit.TxId, tx: AccountTx)
    requires Fresh(s, t) && NewKeyRow(s.tables, tx.request).Some? && !KeyRowLocked(s, t, tx.request.user)
    ensures StoreKeys(env, With(s, t, tx), t)
         == With(s, t, tx.(keyRow := NewKeyRow(s.tables, tx.request), stage := Appending))
  {
    WithTwice(s, t, tx, tx.(keyRow := NewKeyRow(s.tables, tx.request), stage := Appending));
    assert KeyRowLocked(With(s, t, tx), t, tx.request.user) == KeyRowLocked(s, t, tx.request.user);
  }

  /** Key rows are written after the credentials of the same user. */
  lemma KeysFollowCredentials(env: Env, s: State, t: Audit.TxId, u: Uuid)
    requires Inv(env, s) && !CredentialLocked(s, t, u)
    ensures !KeyRowLocked(s, t, u)
  {
    forall o <- s.txs | o != t && s.txs[o].keyRow.Some? ensures s.txs[o].request.user != u {
      assert TxOk(s, o);
    }
  }

  /** What a transaction leaves behind once it has appended its event and committed. */
  function Committed(env: Env, s: State, tx: AccountTx, now: Audit.Timestamp): State {
    State(Publish(s.tables, tx), s.txs,
          Audit.State(s.audit.log + [NextEvent(env, s, tx, now)], s.audit.sequence + 1, None, s.audit.txs),
          s.settled + [tx.request])
  }

  lemma CommitWith(env: Env, s: State, t: Audit.TxId, tx: AccountTx, now: Audit.Timestamp)
    requires Fresh(s, t) && tx.stage == Appending
    ensures CommitTx(env, Appended(env, With(s, t, tx), t, now), t) == Committed(env, s, tx, now)
  {
    var e := NextEvent(env, s, tx, now);
    var done := Appended(env, With(s, t, tx), t, now);
    assert NextEvent(env, With(s, t, tx), tx, now) == e;
    assert DraftOf(tx) == DraftOf(done.txs[t]);
    assert done.txs - {t} == s.txs;
    assert done.audit.txs - {t} == s.audit.txs;
  }

  lemma WithIsReady(s: State, t: Audit.TxId, tx: AccountTx)
    requires Fresh(s, t) && tx.stage == Appending && s.audit.holder == None && s.audit.sequence < I64_MAX
    ensures ReadyToAppend(With(s, t, tx), t)
  {}

  lemma CommittedKeepsInv(env: Env, s: State, t: Audit.TxId, tx: AccountTx, now: Audit.Timestamp)
    requires Inv(env, With(s, t, tx)) && Fresh(s, t) && tx.stage == Appending
    requires s.audit.holder == None && s.audit.sequence < I64_MAX
    ensures Inv(env, Committed(env, s, tx, now))
  {
    WithIsReady(s, t, tx);
    AppendedKeepsInv(env, With(s, t, tx), t, now);
    CommitKeepsInv(env, Appended(env, With(s, t, tx), t, now), t);
    CommitWith(env, s, t, tx, now);
  }

  /** An append call that gets the lock and no number, rolled back. */
  lemma ExhaustedWith(env: Env, s: State, t: Audit.TxId, tx: AccountTx, now: Audit.Timestamp)
    requires Fresh(s, t) && tx.stage == Appending && s.audit.holder == None
    ensures AbortTx(env, Step(env, With(s, t, tx), Run(t, now)), t) == s
  {
    var locked := Step(env, With(s, t, tx), Run(t, now));
    assert locked.txs - {t} == s.txs;
    assert locked.audit.txs - {t} == s.audit.txs;
  }

  // ----------------------------------------------------------------- how a handler ends

  datatype Ending = Done | Waits | Refused | Exhausted

  /** The statement on `identity.users` writes an address. */
  predicate NeedsIndex(r: Request) {
    r.Bootstrap? || r.ChangeEmail?
  }

  /** Decided by the state the handler finds: who holds its rows, who has or may get
      its address, who holds the audit lock, and whether a number is left. */
  function EndingOf(env: Env, s: State, t: Audit.TxId, r: Request): Ending {
    if TouchesUser(r) && UserRowLocked(s, t, r.user) then Waits
    else if NeedsIndex(r) && EmailTaken(env, s, t, r.user, r.email) then Refused
    else if NeedsIndex(r) && EmailContended(env, s, t, r.user, r.email) then Waits
    else if TouchesSecrets(r) && CredentialLocked(s, t, r.user) then Waits
    else if s.audit.holder.Some? then Waits
    else if s.audit.sequence >= I64_MAX then Exhausted
    else Done
  }

  /** The transaction with everything the request writes. */
  function Written(tables: Tables, r: Request): AccountTx {
    AccountTx(r, Appending, NewUserRow(tables, r), NewCredential(tables, r), NewKeyRow(tables, r))
  }

  /** A finished handler has published all its rows and one event, a failed one has left
      no trace, and one that waits has changed nothing but its own transaction, whose
      next statement cannot run. */
  ghost predicate Ran(env: Env, s: State, s': State, t: Audit.TxId, r: Request, now: Audit.Timestamp, end: Ending) {
    match end
    case Done => s' == Committed(env, s, Written(s.tables, r), now)
    case Waits => t in s'.txs && s' == With(s, t, s'.txs[t]) && Step(env, s', Run(t, now)) == s'
    case _ => s' == s
  }

  /** One more event, by this user at this time, of this type and content. */
  ghost predicate Recorded(before: seq<Audit.Event>, after: seq<Audit.Event>, user: Uuid, name: string,
                           kind: string, data: Audit.Json, now: Audit.Timestamp)
  {
    && |after| == |before| + 1 && before == Front(after)
    && Last(after).actorUserId == Some(user)
    && Last(after).actorDisplayName == Some(name)
    && Last(after).eventType == kind
    && Last(after).eventData == data
    && Last(after).occurredAtMicros == now.seconds * 1_000_000 + now.nanos / 1_000
  }

  lemma DoneIsRecorded(env: Env, s: State, r: Request, now: Audit.Timestamp)
    ensures var after, d := Committed(env, s, Written(s.tables, r), now), DraftOf(Written(s.tables, r));
            Recorded(s.audit.log, after.audit.log, r.user, d.actor.value.displayName, d.eventType, d.eventData, now)
  {
    var tx := Written(s.tables, r);
    var e := NextEvent(env, s, tx, now);
    Audit.NewEventColumns(env.codec, s.audit.sequence + 1, Audit.TailHash(env.codec, s.audit.log), DraftOf(tx), now);
    assert Front(s.audit.log + [e]) == s.audit.log;
  }

  /** What the ending of a change of address says about who else has it. */
  lemma EndingAndAddress(env: Env, s: State, t: Audit.TxId, r: Request)
    requires r.ChangeEmail?
    ensures EndingOf(env, s, t, r).Refused? ==>
              exists v :: v in s.tables.users && v != r.user && env.lower(s.tables.users[v].email) == env.lower(r.email)
    ensures EndingOf(env, s, t, r).Done? ==>
              forall v <- s.tables.users :: v != r.user ==> env.lower(s.tables.users[v].email) != env.lower(r.email)
  {
    if EndingOf(env, s, t, r).Done? {
      forall v <- s.tables.users | v != r.user ensures env.lower(s.tables.users[v].email) != env.lower(r.email) {
        if UserRowLocked(s, t, v) {
          var o :| o in s.txs && o != t && s.txs[o].userRow.Some? && s.txs[o].request.user == v;
          assert !Contends(env, s.tables.users, s.txs[o], r.user, r.email);
        }
      }
    }
  }

  /** With nobody else about, only an address that is taken or an exhausted numbering keeps
      a handler from finishing. */
  lemma EndingAlone(env: Env, s: State, t: Audit.TxId, r: Request)
    requires s.txs == map[] && s.audit.holder == None && s.audit.sequence < 0x7fff_ffff_ffff_ffff
    ensures EndingOf(env, s, t, r).Done? || EndingOf(env, s, t, r).Refused?
    ensures EndingOf(env, s, t, r).Refused? <==>
              (r.Bootstrap? || r.ChangeEmail?) &&
              exists v :: v in s.tables.users && v != r.user && env.lower(s.tables.users[v].email) == env.lower(r.email)
  {}

  lemma SecretsGoTogether(env: Env, s: State, u: Uuid)
    requires Inv(env, s)
    ensures u in s.tables.users <==> u in s.tables.credentials
    ensures u in s.tables.users <==> u in s.tables.keys
    ensures s.tables.users == map[] ==> s.tables.credentials == map[] && s.tables.keys == map[]
  {
    assert s.tables.users == map[] ==> s.tables.users.Keys == {};
  }

  lemma BootstrapDone(env: Env, s: State, r: Request, now: Audit.Timestamp)
    requires Inv(env, s) && r.Bootstrap? && s.tables.users == map[]
    ensures var after := Committed(env, s, Written(s.tables, r), now);
            && after.tables.users == map[r.user := UserRow(r.email, r.displayName)]
            && after.tables.credentials == map[r.user := r.phc]
            && after.tables.keys == map[r.user := r.keyRow]
            && Recorded(s.audit.log, after.audit.log, r.user, r.displayName, "owner_bootstrapped",
                        map["email" := r.email, "device_id" := r.deviceId], now)
  {
    SecretsGoTogether(env, s, r.user);
    DoneIsRecorded(env, s, r, now);
  }

  lemma ChangePasswordDone(env: Env, s: State, r: Request, now: Audit.Timestamp)
    requires Inv(env, s) && r.ChangePassword? && r.user in s.tables.users
    ensures r.user in s.tables.credentials && r.user in s.tables.keys
    ensures var after := Committed(env, s, Written(s.tables, r), now);
            && after.tables.users == s.tables.users
            && after.tables.credentials == s.tables.credentials[r.user := r.phc]
            && after.tables.keys == s.tables.keys[r.user := KeyRow(s.tables.keys[r.user].pairs, r.wrap)]
            && Recorded(s.audit.log, after.audit.log, r.user, r.actorName, "password_changed", map[], now)
  {
    SecretsGoTogether(env, s, r.user);
    DoneIsRecorded(env, s, r, now);
  }
}
