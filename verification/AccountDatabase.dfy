/** The account handlers statement by statement on a shared database object, whatever
    other transactions are open on it. A handler whose next statement has to wait stops
    there; the rest of its run is a matter of the interleavings in `Accounts`. */
module AccountDatabase {
  import opened Prelude
  import Audit = AuditLog
  import opened Accounts
  import opened AccountSafety
  import opened AccountRuns

  datatype Status = InvalidArgument | Unauthenticated | AlreadyExists | FailedPrecondition | Internal

  datatype Reply<T> = Ok(value: T) | Failed(status: Status) | Waiting

  function ReplyOf<T>(end: Ending, value: T): Reply<T> {
    match end
    case Done => Ok(value)
    case Waits => Waiting
    case Refused => Failed(AlreadyExists)
    case Exhausted => Failed(Internal)
  }

  class Database {
    const env: Env
    var users: map<Uuid, UserRow>
    var credentials: map<Uuid, string>
    var keys: map<Uuid, KeyRow>
    var open: map<Audit.TxId, AccountTx>
    var audit: Audit.State
    ghost var settled: seq<Request>

    ghost function Model(): State
      reads this
    {
      State(Tables(users, credentials, keys), open, audit, settled)
    }

    ghost predicate Valid()
      reads this
    {
      Inv(env, Model())
    }

    constructor (env: Env)
      ensures Valid() && Model() == EMPTY && this.env == env
    {
      this.env := env;
      users, credentials, keys, open, audit, settled := map[], map[], map[], map[], Audit.EMPTY, [];
      new;
      EmptyInv(env);
    }

    method OpenTransaction(t: Audit.TxId, r: Request)
      requires MayStart(Model(), t, r)
      modifies this`open, this`audit
      ensures Model() == Step(env, old(Model()), Start(t, r))
    {
      open := open[t := AccountTx(r, FirstStage(r), None, None, None)];
      audit := Audit.Step(env.codec, audit, Audit.Begin(t));
    }

    method RollBack(t: Audit.TxId)
      requires t in open
      modifies this`open, this`audit
      ensures Model() == AbortTx(env, old(Model()), t)
    {
      open := open - {t};
      audit := Audit.Step(env.codec, audit, Audit.Rollback(t));
    }

    /** The insert or update of `identity.users`, up to the index: waits for the row,
        or leaves it written and locked. */
    method ClaimRow(t: Audit.TxId)
      requires t in open && open[t].stage == Stage.ClaimRow
      modifies this`open, this`audit
      ensures Model() == ClaimUserRow(env, old(Model()), t)
    {
      var tx := open[t];
      if exists o <- open :: o != t && open[o].userRow.Some? && open[o].request.user == tx.request.user {
        return;
      }
      var row := NewUserRow(Tables(users, credentials, keys), tx.request);
      if row.None? {
        RollBack(t);
        return;
      }
      open := open[t := tx.(userRow := row, stage := if tx.request.ChangeName? then Appending else Stage.PassIndex)];
    }

    /** The rest of that statement, with the row locked: the unique index refuses the
        address, makes the statement wait, or takes the entry. */
    method PassIndex(t: Audit.TxId)
      requires t in open && open[t].stage == Stage.PassIndex && open[t].userRow.Some?
      modifies this`open, this`audit
      ensures Model() == PassEmailIndex(env, old(Model()), t)
    {
      var tx := open[t];
      var u, address := tx.request.user, env.lower(tx.userRow.value.email);
      if exists v <- users :: v != u && env.lower(users[v].email) == address &&
           !exists o <- open :: o != t && open[o].userRow.Some? && open[o].request.user == v {
        RollBack(t);
        return;
      }
      if exists o <- open :: o != t && open[o].userRow.Some? && open[o].request.user != u &&
           ((open[o].stage != Stage.PassIndex && env.lower(open[o].userRow.value.email) == address) ||
            (open[o].request.user in users && env.lower(users[open[o].request.user].email) == address)) {
        return;
      }
      open := open[t := tx.(stage := if TouchesSecrets(tx.request) then WriteCredentials else Appending)];
    }

    method StorePasswordHash(t: Audit.TxId)
      requires t in open && open[t].stage == WriteCredentials
      modifies this`open, this`audit
      ensures Model() == StoreCredential(env, old(Model()), t)
    {
      var tx := open[t];
      if exists o <- open :: o != t && open[o].credential.Some? && open[o].request.user == tx.request.user {
        return;
      }
      var phc := NewCredential(Tables(users, credentials, keys), tx.request);
      if phc.None? && tx.request.Bootstrap? {
        RollBack(t);
      } else {
        open := open[t := tx.(credential := phc, stage := WriteKeys)];
      }
    }

    method StoreKeyMaterial(t: Audit.TxId)
      requires t in open && open[t].stage == WriteKeys
      modifies this`open, this`audit
      ensures Model() == StoreKeys(env, old(Model()), t)
    {
      var tx := open[t];
      if exists o <- open :: o != t && open[o].keyRow.Some? && open[o].request.user == tx.request.user {
        return;
      }
      var row := NewKeyRow(Tables(users, credentials, keys), tx.request);
      if row.None? && tx.request.Bootstrap? {
        RollBack(t);
      } else {
        open := open[t := tx.(keyRow := row, stage := Appending)];
      }
    }

    /** The next statement of the append call: the lock is asked for, a number drawn, the
        newest visible row read, or the event inserted. */
    method RunAppendStatement(t: Audit.TxId, now: Audit.Timestamp)
      requires t in open && t in audit.txs && open[t].stage == Appending
      modifies this`open, this`audit
      ensures Model() == Step(env, old(Model()), Run(t, now))
    {
      var tx := audit.txs[t];
      match tx.phase {
        case Idle =>
          if audit.holder == None || audit.holder == Some(t) {
            audit := audit.(holder := Some(t), txs := audit.txs[t := tx.(phase := Audit.Locked)]);
          }
        case Locked =>
          if audit.sequence < I64_MAX {
            var n := audit.sequence + 1;
            audit := audit.(sequence := n, txs := audit.txs[t := tx.(phase := Audit.Drawn(n))]);
          }
        case Drawn(n) =>
          var prevHash := Audit.TailHash(env.codec, audit.log + tx.pending);
          audit := audit.(txs := audit.txs[t := tx.(phase := Audit.TailRead(n, prevHash))]);
        case TailRead(n, prevHash) =>
          var e := Audit.NewEvent(env.codec, n, prevHash, DraftOf(open[t]), now);
          audit := audit.(txs := audit.txs[t := Audit.Tx(Audit.Idle, tx.pending + [e])]);
      }
      open := open[t := open[t].(stage := if tx.phase.TailRead? then Committing else Appending)];
    }

    method AppendEvent(t: Audit.TxId, now: Audit.Timestamp)
      requires ReadyToAppend(Model(), t)
      modifies this`open, this`audit
      ensures Model() == Appended(env, old(Model()), t, now)
    {
      ghost var before := Model();
      LockRun(env, before, t, now);
      DrawRun(env, before, t, now);
      ReadRun(env, before, t, now);
      AppendedIsFourRuns(env, before, t, now);
      RunAppendStatement(t, now);
      RunAppendStatement(t, now);
      RunAppendStatement(t, now);
      RunAppendStatement(t, now);
    }

    method Commit(t: Audit.TxId)
      requires t in open && open[t].stage == Committing
      modifies this
      ensures Model() == CommitTx(env, old(Model()), t)
    {
      var tx := open[t];
      var u := tx.request.user;
      if tx.userRow.Some? { users := users[u := tx.userRow.value]; }
      if tx.credential.Some? { credentials := credentials[u := tx.credential.value]; }
      if tx.keyRow.Some? { keys := keys[u := tx.keyRow.value]; }
      open := open - {t};
      audit := Audit.Step(env.codec, audit, Audit.Commit(t));
      settled := settled + [tx.request];
    }

    /** The last statements of every handler. */
    method Finish(ghost s: State, t: Audit.TxId, ghost tx: AccountTx, now: Audit.Timestamp) returns (end: Ending)
      requires Valid() && Fresh(s, t) && Model() == With(s, t, tx) && tx.stage == Appending
      modifies this
      ensures Valid()
      ensures end == if s.audit.holder.Some? then Waits else if s.audit.sequence >= I64_MAX then Exhausted else Done
      ensures match end
              case Done => Model() == Committed(env, s, tx, now)
              case Waits => Model() == With(s, t, tx) && Step(env, Model(), Run(t, now)) == Model()
              case _ => Model() == s
    {
      if audit.holder.Some? {
        assert open[t := open[t]] == open;
        return Waits;
      }
      if audit.sequence >= I64_MAX {
        GiveUp(s, t, tx, now);
        return Exhausted;
      }
      AppendAndCommit(s, t, tx, now);
      end := Done;
    }

    /** The lock is had and no number: the error rolls the transaction back. */
    method GiveUp(ghost s: State, t: Audit.TxId, ghost tx: AccountTx, now: Audit.Timestamp)
      requires Valid() && Fresh(s, t) && Model() == With(s, t, tx) && tx.stage == Appending
      requires audit.holder == None && audit.sequence >= I64_MAX
      modifies this`open, this`audit
      ensures Valid() && Model() == s
    {
      ExhaustedWith(env, s, t, tx, now);
      StepKeepsInv(env, Model(), Run(t, now));
      RunAppendStatement(t, now);
      StepKeepsInv(env, Model(), Abort(t));
      RollBack(t);
    }

    method AppendAndCommit(ghost s: State, t: Audit.TxId, ghost tx: AccountTx, now: Audit.Timestamp)
      requires Valid() && Fresh(s, t) && Model() == With(s, t, tx) && tx.stage == Appending
      requires audit.holder == None && audit.sequence < I64_MAX
      modifies this
      ensures Valid() && Model() == Committed(env, s, tx, now)
    {
      CommittedKeepsInv(env, s, t, tx, now);
      CommitWith(env, s, t, tx, now);
      AppendEvent(t, now);
      Commit(t);
    }

    method Begin(t: Audit.TxId, r: Request)
      requires Valid() && MayStart(Model(), t, r)
      modifies this`open, this`audit
      ensures Valid() && Fresh(old(Model()), t)
      ensures Model() == With(old(Model()), t, AccountTx(r, FirstStage(r), None, None, None))
    {
      StartWith(env, Model(), t, r);
      StepKeepsInv(env, Model(), Start(t, r));
      OpenTransaction(t, r);
    }

    /** The statement on `identity.users`, as far as it gets. */
    method WriteUserRow(ghost s: State, t: Audit.TxId, ghost tx: AccountTx, ghost now: Audit.Timestamp)
      returns (end: Ending)
      requires Valid() && Fresh(s, t) && Model() == With(s, t, tx) && tx.stage == Stage.ClaimRow
      requires NewUserRow(s.tables, tx.request).Some? && TouchesUser(tx.request)
      modifies this`open, this`audit
      ensures Valid()
      ensures var r, row := tx.request, NewUserRow(s.tables, tx.request);
              end == if UserRowLocked(s, t, r.user) then Waits
                     else if NeedsIndex(r) && EmailTaken(env, s, t, r.user, row.value.email) then Refused
                     else if NeedsIndex(r) && EmailContended(env, s, t, r.user, row.value.email) then Waits
                     else Done
      ensures match end
              case Done => Model() == With(s, t, tx.(userRow := NewUserRow(s.tables, tx.request),
                                                     stage := if TouchesSecrets(tx.request) then WriteCredentials
                                                              else Appending))
              case Waits => t in open && Model() == With(s, t, open[t]) && Step(env, Model(), Run(t, now)) == Model()
              case _ => Model() == s
    {
      ClaimWith(env, s, t, tx);
      StepKeepsInv(env, Model(), Run(t, now));
      this.ClaimRow(t);
      if open[t].stage == Stage.ClaimRow {
        return Waits;
      }
      if open[t].stage == Stage.PassIndex {
        PassWith(env, s, t, open[t]);
        StepKeepsInv(env, Model(), Run(t, now));
        this.PassIndex(t);
        if t !in open {
          return Refused;
        }
        if open[t].stage == Stage.PassIndex {
          return Waits;
        }
      }
      end := Done;
    }

    /** The statements on `auth.credentials` and `identity.user_keys`. */
    method WriteSecrets(ghost s: State, t: Audit.TxId, ghost tx: AccountTx, ghost now: Audit.Timestamp)
      returns (end: Ending)
      requires Valid() && Inv(env, s) && Fresh(s, t) && Model() == With(s, t, tx) && tx.stage == WriteCredentials
      requires NewCredential(s.tables, tx.request).Some? && NewKeyRow(s.tables, tx.request).Some?
      modifies this`open, this`audit
      ensures Valid()
      ensures end == if CredentialLocked(s, t, tx.request.user) then Waits else Done
      ensures end.Waits? ==> Model() == With(s, t, tx) && Step(env, Model(), Run(t, now)) == Model()
      ensures end.Done? ==>
                Model() == With(s, t, tx.(credential := NewCredential(s.tables, tx.request),
                                          keyRow := NewKeyRow(s.tables, tx.request), stage := Appending))
    {
      CredentialWith(env, s, t, tx);
      StepKeepsInv(env, Model(), Run(t, now));
      StorePasswordHash(t);
      if open[t].stage == WriteCredentials {
        return Waits;
      }
      KeysFollowCredentials(env, s, t, tx.request.user);
      KeysWith(env, s, t, open[t]);
      StepKeepsInv(env, Model(), Run(t, now));
      StoreKeyMaterial(t);
      end := Done;
    }

    /** The transaction of `update_display_name` and `update_email`. */
    method ChangeProfile(t: Audit.TxId, r: Request, now: Audit.Timestamp) returns (end: Ending)
      requires Valid() && (r.ChangeName? || r.ChangeEmail?) && MayStart(Model(), t, r)
      modifies this
      ensures Valid() && end == EndingOf(env, old(Model()), t, r)
      ensures Ran(env, old(Model()), Model(), t, r, now, end)
    {
      ghost var s := Model();
      Begin(t, r);
      end := WriteUserRow(s, t, open[t], now);
      if end.Done? {
        assert open[t] == Written(s.tables, r);
        end := Finish(s, t, open[t], now);
      }
    }

    /** The transaction of `change_password`. */
    method ReplaceSecrets(t: Audit.TxId, r: Request, now: Audit.Timestamp) returns (end: Ending)
      requires Valid() && r.ChangePassword? && MayStart(Model(), t, r)
      modifies this
      ensures Valid() && end == EndingOf(env, old(Model()), t, r)
      ensures Ran(env, old(Model()), Model(), t, r, now, end)
    {
      ghost var s := Model();
      SecretsGoTogether(env, s, r.user);
      Begin(t, r);
      end := WriteSecrets(s, t, open[t], now);
      if end.Done? {
        assert open[t] == Written(s.tables, r);
        end := Finish(s, t, open[t], now);
      }
    }

    /** The transaction of `bootstrap`, under a new id. */
    method CreateOwner(t: Audit.TxId, r: Request, now: Audit.Timestamp) returns (end: Ending)
      requires Valid() && r.Bootstrap? && MayStart(Model(), t, r) && r.user !in users
      modifies this
      ensures Valid() && end == EndingOf(env, old(Model()), t, r)
      ensures Ran(env, old(Model()), Model(), t, r, now, end)
    {
      ghost var s := Model();
      SecretsGoTogether(env, s, r.user);
      Begin(t, r);
      end := WriteUserRow(s, t, open[t], now);
      if end.Done? {
        end := WriteSecrets(s, t, open[t], now);
        if end.Done? {
          assert open[t] == Written(s.tables, r);
          end := Finish(s, t, open[t], now);
        }
      }
    }

    /** What `update_display_name` comes to, table by table. */
    method Rename(t: Audit.TxId, r: Request, now: Audit.Timestamp) returns (end: Ending)
      requires Valid() && r.ChangeName? && MayStart(Model(), t, r) && r.user in users
      modifies this
      ensures Valid() && credentials == old(credentials) && keys == old(keys)
      ensures end == EndingOf(env, old(Model()), t, r) && !end.Refused?
      ensures end.Exhausted? ==> Model() == old(Model())
      ensures end.Waits? ==> t in open && Model() == With(old(Model()), t, open[t])
                             && Step(env, Model(), Run(t, now)) == Model()
      ensures end.Done? ==> open == old(open) && audit.txs == old(audit.txs)
                            && users == old(users)[r.user := UserRow(old(users)[r.user].email, r.displayName)]
                            && Recorded(old(audit.log), audit.log, r.user, r.displayName, "display_name_changed",
                                        map["display_name" := r.displayName], now)
    {
      DoneIsRecorded(env, Model(), r, now);
      end := ChangeProfile(t, r, now);
    }

    /** What `change_password` comes to, table by table. */
    method RotateSecrets(t: Audit.TxId, r: Request, now: Audit.Timestamp) returns (end: Ending)
      requires Valid() && r.ChangePassword? && MayStart(Model(), t, r)
      modifies this
      ensures Valid() && users == old(users) && end == EndingOf(env, old(Model()), t, r)
      ensures !end.Waits? && !end.Done? ==> Model() == old(Model())
      ensures end.Waits? ==> t in open && Model() == With(old(Model()), t, open[t])
                             && Step(env, Model(), Run(t, now)) == Model()
      ensures end.Done? ==> open == old(open) && audit.txs == old(audit.txs) && r.user in old(keys)
                            && credentials == old(credentials)[r.user := r.phc]
                            && keys == old(keys)[r.user := KeyRow(old(keys)[r.user].pairs, r.wrap)]
                            && Recorded(old(audit.log), audit.log, r.user, r.actorName, "password_changed", map[], now)
    {
      ChangePasswordDone(env, Model(), r, now);
      end := ReplaceSecrets(t, r, now);
    }

    /** What `bootstrap` comes to, table by table, when there is no user yet. */
    method InstallOwner(t: Audit.TxId, r: Request, now: Audit.Timestamp) returns (end: Ending)
      requires Valid() && r.Bootstrap? && MayStart(Model(), t, r) && users == map[]
      modifies this
      ensures Valid() && end == EndingOf(env, old(Model()), t, r)
      ensures !end.Waits? && !end.Done? ==> Model() == old(Model())
      ensures end.Waits? ==> t in open && Model() == With(old(Model()), t, open[t])
                             && Step(env, Model(), Run(t, now)) == Model()
      ensures end.Done? ==> open == old(open) && audit.txs == old(audit.txs)
                            && users == map[r.user := UserRow(r.email, r.displayName)]
                            && credentials == map[r.user := r.phc] && keys == map[r.user := r.keyRow]
                            && Recorded(old(audit.log), audit.log, r.user, r.displayName, "owner_bootstrapped",
                                        map["email" := r.email, "device_id" := r.deviceId], now)
    {
      BootstrapDone(env, Model(), r, now);
      end := CreateOwner(t, r, now);
    }

    /** `update_display_name`. */
    method UpdateDisplayName(t: Audit.TxId, user: Uuid, requested: string, trim: string -> string, now: Audit.Timestamp)
      returns (r: Reply<UserRow>)
      requires Valid() && t !in open && t !in audit.txs && user in users
      modifies this
      ensures Valid() && credentials == old(credentials) && keys == old(keys)
      ensures r == if trim(requested) == "" then Failed(InvalidArgument)
                   else ReplyOf(EndingOf(env, old(Model()), t, ChangeName(user, trim(requested))), users[user])
      ensures r.Failed? ==> Model() == old(Model())
      ensures r.Waiting? ==> t in open && Model() == With(old(Model()), t, open[t])
                             && Step(env, Model(), Run(t, now)) == Model()
      ensures r.Ok? ==> open == old(open) && audit.txs == old(audit.txs)
                        && users == old(users)[user := UserRow(old(users)[user].email, trim(requested))]
                        && Recorded(old(audit.log), audit.log, user, trim(requested), "display_name_changed",
                                    map["display_name" := trim(requested)], now)
      ensures r == Failed(InvalidArgument) <==> trim(requested) == ""
      ensures old(open) == map[] && old(audit.holder) == None && old(audit.sequence) < 0x7fff_ffff_ffff_ffff ==>
                !r.Waiting? && r != Failed(Internal)
    {
      ghost var s := Model();
      var displayName := trim(requested);
      if displayName == "" {
        return Failed(InvalidArgument);
      }
      var request := ChangeName(user, displayName);
      if open == map[] && audit.holder == None && audit.sequence < I64_MAX { EndingAlone(env, s, t, request); }
      var end := Rename(t, request, now);
      r := ReplyOf(end, users[user]);
    }

    /** `update_email`: the current password gates the change, the unique index decides
        it. */
    method UpdateEmail(
        t: Audit.TxId, user: Uuid, currentPassword: string, verify: (string, string) -> bool,
        requested: string, trim: string -> string, now: Audit.Timestamp) returns (r: Reply<UserRow>)
      requires Valid() && t !in open && t !in audit.txs && user in users
      modifies this
      ensures Valid() && credentials == old(credentials) && keys == old(keys)
      ensures r == if !(user in old(credentials) && verify(old(credentials)[user], currentPassword))
                   then Failed(Unauthenticated)
                   else if trim(requested) == "" then Failed(InvalidArgument)
                   else ReplyOf(EndingOf(env, old(Model()), t, ChangeEmail(user, trim(requested))), users[user])
      ensures r.Failed? ==> Model() == old(Model())
      ensures r.Waiting? ==> t in open && Model() == With(old(Model()), t, open[t])
                             && Step(env, Model(), Run(t, now)) == Model()
      ensures r.Ok? ==> open == old(open) && audit.txs == old(audit.txs)
                        && users == old(users)[user := UserRow(trim(requested), old(users)[user].displayName)]
                        && Recorded(old(audit.log), audit.log, user, old(users)[user].displayName,
                                    "email_changed", map["email" := trim(requested)], now)
      ensures r == Failed(Unauthenticated) <==>
                !(user in old(credentials) && verify(old(credentials)[user], currentPassword))
      ensures r == Failed(InvalidArgument) <==>
                user in old(credentials) && verify(old(credentials)[user], currentPassword) && trim(requested) == ""
      ensures r == Failed(AlreadyExists) ==>
                exists v :: v in old(users) && v != user && env.lower(old(users)[v].email) == env.lower(trim(requested))
      ensures r.Ok? ==>
                forall v :: v in old(users) && v != user ==>
                  env.lower(old(users)[v].email) != env.lower(trim(requested))
      ensures old(open) == map[] && old(audit.holder) == None && old(audit.sequence) < 0x7fff_ffff_ffff_ffff ==>
                !r.Waiting? && r != Failed(Internal)
    {
      ghost var s := Model();
      if user !in credentials || !verify(credentials[user], currentPassword) {
        return Failed(Unauthenticated);
      }
      var email := trim(requested);
      if email == "" {
        return Failed(InvalidArgument);
      }
      var request := ChangeEmail(user, email);
      DoneIsRecorded(env, s, request, now);
      EndingAndAddress(env, s, t, request);
      if open == map[] && audit.holder == None && audit.sequence < I64_MAX { EndingAlone(env, s, t, request); }
      var end := ChangeProfile(t, request, now);
      r := ReplyOf(end, users[user]);
    }

    /** `change_password`: the verifier and the three columns of the wrap change
        together; the key pairs stay as they were. */
    method ChangePassword(
        t: Audit.TxId, user: Uuid, currentPassword: string, verify: (string, string) -> bool,
        newPassword: string, hash: string -> string, wrap: MasterWrap, now: Audit.Timestamp) returns (r: Reply<()>)
      requires Valid() && t !in open && t !in audit.txs && user in users
      modifies this
      ensures Valid() && users == old(users)
      ensures var request := Request.ChangePassword(user, hash(newPassword), wrap, users[user].displayName);
              r == if !(user in old(credentials) && verify(old(credentials)[user], currentPassword))
                   then Failed(Unauthenticated)
                   else if newPassword == "" then Failed(InvalidArgument)
                   else ReplyOf(EndingOf(env, old(Model()), t, request), ())
      ensures r.Failed? ==> Model() == old(Model())
      ensures r.Waiting? ==> t in open && Model() == With(old(Model()), t, open[t])
                             && Step(env, Model(), Run(t, now)) == Model()
      ensures r.Ok? ==> open == old(open) && audit.txs == old(audit.txs) && user in old(keys)
                        && credentials == old(credentials)[user := hash(newPassword)]
                        && keys == old(keys)[user := KeyRow(old(keys)[user].pairs, wrap)]
                        && Recorded(old(audit.log), audit.log, user, users[user].displayName,
                                    "password_changed", map[], now)
      ensures r == Failed(Unauthenticated) <==>
                !(user in old(credentials) && verify(old(credentials)[user], currentPassword))
      ensures r == Failed(InvalidArgument) <==>
                user in old(credentials) && verify(old(credentials)[user], currentPassword) && newPassword == ""
      ensures r != Failed(AlreadyExists) && r != Failed(FailedPrecondition)
      ensures old(open) == map[] && old(audit.holder) == None && old(audit.sequence) < 0x7fff_ffff_ffff_ffff ==>
                !r.Waiting? && r != Failed(Internal)
    {
      ghost var s := Model();
      if user !in credentials || !verify(credentials[user], currentPassword) {
        return Failed(Unauthenticated);
      }
      if newPassword == "" {
        return Failed(InvalidArgument);
      }
      var request := Request.ChangePassword(user, hash(newPassword), wrap, users[user].displayName);
      if open == map[] && audit.holder == None && audit.sequence < I64_MAX { EndingAlone(env, s, t, request); }
      var end := RotateSecrets(t, request, now);
      r := ReplyOf(end, ());
    }

    /** `bootstrap`, from the first-owner gate on: `complete` says that the request
        carries key material and a valid device. The gate sees committed users only, so
        two bootstraps may both be past it. */
    method BootstrapOwner(
        t: Audit.TxId, freshId: Uuid, rawEmail: string, rawName: string, password: string, complete: bool,
        trim: string -> string, hash: string -> string, keyRow: KeyRow, device: string, now: Audit.Timestamp)
      returns (r: Reply<Uuid>)
      requires Valid() && t !in open && t !in audit.txs && freshId !in users
      modifies this
      ensures Valid()
      ensures var request := Bootstrap(freshId, trim(rawEmail), trim(rawName), hash(password), keyRow, device);
              r == if trim(rawEmail) == "" || trim(rawName) == "" || password == "" || !complete
                   then Failed(InvalidArgument)
                   else if old(users) != map[] then Failed(FailedPrecondition)
                   else ReplyOf(EndingOf(env, old(Model()), t, request), freshId)
      ensures r.Failed? ==> Model() == old(Model())
      ensures r.Waiting? ==> t in open && Model() == With(old(Model()), t, open[t])
                             && Step(env, Model(), Run(t, now)) == Model()
      ensures r.Ok? ==> open == old(open) && audit.txs == old(audit.txs)
                        && users == map[freshId := UserRow(trim(rawEmail), trim(rawName))]
                        && credentials == map[freshId := hash(password)]
                        && keys == map[freshId := keyRow]
                        && Recorded(old(audit.log), audit.log, freshId, trim(rawName), "owner_bootstrapped",
                                    map["email" := trim(rawEmail), "device_id" := device], now)
      ensures r == Failed(InvalidArgument) <==>
                trim(rawEmail) == "" || trim(rawName) == "" || password == "" || !complete
      ensures r == Failed(FailedPrecondition) <==> r != Failed(InvalidArgument) && old(users) != map[]
      ensures r != Failed(AlreadyExists)
      ensures old(open) == map[] && old(audit.holder) == None && old(audit.sequence) < 0x7fff_ffff_ffff_ffff ==>
                !r.Waiting? && r != Failed(Internal)
    {
      ghost var s := Model();
      var email, name := trim(rawEmail), trim(rawName);
      if email == "" || name == "" || password == "" || !complete {
        return Failed(InvalidArgument);
      }
      if |users| > 0 {
        return Failed(FailedPrecondition);
      }
      assert users == map[];
      var request := Bootstrap(freshId, email, name, hash(password), keyRow, device);
      if open == map[] && audit.holder == None && audit.sequence < I64_MAX { EndingAlone(env, s, t, request); }
      var end := InstallOwner(t, request, now);
      r := ReplyOf(end, freshId);
    }
  }

  /** After a change of password only the new password lets its owner change the address,
      for a hash that tells passwords apart. */
  method ChangeThenUpdate(
      db: Database, t1: Audit.TxId, t2: Audit.TxId, user: Uuid, current: string, p: string, q: string, email: string,
      verify: (string, string) -> bool, hash: string -> string, wrap: MasterWrap, trim: string -> string,
      now: Audit.Timestamp) returns (changed: Reply<()>, updated: Reply<UserRow>)
    requires db.Valid() && user in db.users && t1 != t2
    requires t1 !in db.open && t1 !in db.audit.txs && t2 !in db.open && t2 !in db.audit.txs
    requires forall x, y :: verify(hash(x), y) <==> x == y
    modifies db
    ensures changed.Ok? ==> (updated == Failed(Unauthenticated) <==> q != p)
  {
    changed := db.ChangePassword(t1, user, current, verify, p, hash, wrap, now);
    updated := db.UpdateEmail(t2, user, q, verify, email, trim, now);
  }
}
