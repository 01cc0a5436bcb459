/** The account RPCs as interleaved database transactions. Each one writes rows
    under row locks held to commit, appends one audit event through the chain's
    appender, and publishes rows and event together. */
module Accounts {
  import opened Prelude
  import Audit = AuditLog

  // -------------------------------------------------------------------- tables

  datatype UserRow = UserRow(email: string, displayName: string)

  /** The part of `identity.user_keys` that a password change rotates. */
  datatype MasterWrap = MasterWrap(masterKeyWrapped: Bytes, kdfSalt: Bytes, kdfParams: string)

  /** The part that is written once, at account creation. */
  datatype KeyPairs = KeyPairs(x25519Public: Bytes, ed25519Public: Bytes,
                               x25519PrivateWrapped: Bytes, ed25519PrivateWrapped: Bytes)

  datatype KeyRow = KeyRow(pairs: KeyPairs, wrap: MasterWrap)

  /** Committed contents of `identity.users`, `auth.credentials` (password hash)
      and `identity.user_keys`. */
  datatype Tables = Tables(users: map<Uuid, UserRow>, credentials: map<Uuid, string>, keys: map<Uuid, KeyRow>)

  // ------------------------------------------------------------------ requests

  /** What a handler hands to its transaction once its checks have passed. The
      password is already hashed; a new user's id is already drawn. */
  datatype Request =
    | Bootstrap(user: Uuid, email: string, displayName: string, phc: string, keyRow: KeyRow, deviceId: string)
    | ChangeName(user: Uuid, displayName: string)
    | ChangeEmail(user: Uuid, email: string)
    | ChangePassword(user: Uuid, phc: string, wrap: MasterWrap, actorName: string)

  /** The user row the request writes, `None` when the statement fails: the id is
      taken on insert, or missing on update. */
  function NewUserRow(tables: Tables, r: Request): Option<UserRow> {
    match r
    case Bootstrap(u, email, name, _, _, _) =>
      if u in tables.users then None else Some(UserRow(email, name))
    case ChangeName(u, name) =>
      if u in tables.users then Some(tables.users[u].(displayName := name)) else None
    case ChangeEmail(u, email) =>
      if u in tables.users then Some(tables.users[u].(email := email)) else None
    case ChangePassword(_, _, _, _) => None
  }

  function NewCredential(tables: Tables, r: Request): Option<string> {
    match r
    case Bootstrap(u, _, _, phc, _, _) => if u in tables.credentials then None else Some(phc)
    case ChangePassword(u, phc, _, _) => if u in tables.credentials then Some(phc) else None
    case _ => None
  }

  function NewKeyRow(tables: Tables, r: Request): Option<KeyRow> {
    match r
    case Bootstrap(u, _, _, _, row, _) => if u in tables.keys then None else Some(row)
    case ChangePassword(u, _, wrap, _) =>
      if u in tables.keys then Some(tables.keys[u].(wrap := wrap)) else None
    case _ => None
  }

  /** The statements of a transaction, in the order every handler runs them. The
      statement on `identity.users` has two parts: it locks and writes its row, and
      then, holding that lock, gets the row's address past the unique index. */
  datatype Stage = ClaimRow | PassIndex | WriteCredentials | WriteKeys | Appending | Committing

  function Rank(stage: Stage): nat {
    match stage
    case ClaimRow => 0
    case PassIndex => 1
    case WriteCredentials => 2
    case WriteKeys => 3
    case Appending => 4
    case Committing => 5
  }

  predicate TouchesUser(r: Request) {
    !r.ChangePassword?
  }

  predicate TouchesSecrets(r: Request) {
    r.Bootstrap? || r.ChangePassword?
  }

  /** Rows written but not yet committed; writing a row also locks it. */
  datatype AccountTx = AccountTx(request: Request, stage: Stage,
                                 userRow: Option<UserRow>, credential: Option<string>, keyRow: Option<KeyRow>)

  /** `settled` remembers the committed requests in commit order. It is never
      read by a step. */
  datatype State = State(tables: Tables, txs: map<Audit.TxId, AccountTx>, audit: Audit.State, settled: seq<Request>)

  const EMPTY := State(Tables(map[], map[], map[]), map[], Audit.EMPTY, [])

  /** The serializer and hash of the chain, and SQL `lower`. */
  datatype Env = Env(codec: Audit.Codec, lower: string -> string)

  // -------------------------------------------------------------- audit events

  const BOOTSTRAPPED := "owner_bootstrapped"
  const NAME_CHANGED := "display_name_changed"
  const EMAIL_CHANGED := "email_changed"
  const PASSWORD_CHANGED := "password_changed"

  /** The event of a transaction. Bootstrap and the two profile changes describe
      the row as written; a password change carries the caller's snapshot. */
  function DraftOf(tx: AccountTx): Audit.Draft {
    var row := if tx.userRow.Some? then tx.userRow.value else UserRow("", "");
    var u := tx.request.user;
    match tx.request
    case Bootstrap(_, _, _, _, _, device) =>
      Audit.Draft(Some(Audit.Actor(u, row.displayName)), None, BOOTSTRAPPED,
                  map["email" := row.email, "device_id" := device])
    case ChangeName(_, _) =>
      Audit.Draft(Some(Audit.Actor(u, row.displayName)), None, NAME_CHANGED,
                  map["display_name" := row.displayName])
    case ChangeEmail(_, _) =>
      Audit.Draft(Some(Audit.Actor(u, row.displayName)), None, EMAIL_CHANGED, map["email" := row.email])
    case ChangePassword(_, _, _, actorName) =>
      Audit.Draft(Some(Audit.Actor(u, actorName)), None, PASSWORD_CHANGED, map[])
  }

  /** What one event says about the profile of user `u`. */
  function ReplayEvent(acc: Option<UserRow>, e: Audit.Event, u: Uuid): Option<UserRow> {
    if e.actorUserId != Some(u) then acc
    else if e.eventType == BOOTSTRAPPED && "email" in e.eventData && e.actorDisplayName.Some? then
      Some(UserRow(e.eventData["email"], e.actorDisplayName.value))
    else if e.eventType == NAME_CHANGED && "display_name" in e.eventData && acc.Some? then
      Some(acc.value.(displayName := e.eventData["display_name"]))
    else if e.eventType == EMAIL_CHANGED && "email" in e.eventData && acc.Some? then
      Some(acc.value.(email := e.eventData["email"]))
    else acc
  }

  /** Folding the committed events in `seqno` order. */
  function Replay(log: seq<Audit.Event>, u: Uuid): Option<UserRow> {
    if log == [] then None else ReplayEvent(Replay(Front(log), u), Last(log), u)
  }

  // --------------------------------------------------------------------- steps

  predicate UserRowLocked(s: State, t: Audit.TxId, u: Uuid) {
    exists o <- s.txs :: o != t && s.txs[o].userRow.Some? && s.txs[o].request.user == u
  }

  predicate CredentialLocked(s: State, t: Audit.TxId, u: Uuid) {
    exists o <- s.txs :: o != t && s.txs[o].credential.Some? && s.txs[o].request.user == u
  }

  predicate KeyRowLocked(s: State, t: Audit.TxId, u: Uuid) {
    exists o <- s.txs :: o != t && s.txs[o].keyRow.Some? && s.txs[o].request.user == u
  }

  /** The unique index on `email_lower` finds a live row of somebody else. */
  predicate EmailTaken(env: Env, s: State, t: Audit.TxId, u: Uuid, email: string) {
    exists v <- s.tables.users :: v != u && !UserRowLocked(s, t, v)
                               && env.lower(s.tables.users[v].email) == env.lower(email)
  }

  /** The address of the new row version has an index entry. */
  predicate Indexed(tx: AccountTx) {
    tx.userRow.Some? && tx.stage != PassIndex
  }

  /** The fate of an index entry for `email` is up to transaction `tx`: its own new
      entry, or the entry of the committed row version it has replaced. */
  predicate Contends(env: Env, users: map<Uuid, UserRow>, tx: AccountTx, u: Uuid, email: string) {
    var v := tx.request.user;
    && tx.userRow.Some? && v != u
    && (|| (Indexed(tx) && env.lower(tx.userRow.value.email) == env.lower(email))
        || (v in users && env.lower(users[v].email) == env.lower(email)))
  }

  /** The unique index finds an entry whose fate another open transaction decides. */
  predicate EmailContended(env: Env, s: State, t: Audit.TxId, u: Uuid, email: string) {
    exists o <- s.txs :: o != t && Contends(env, s.tables.users, s.txs[o], u, email)
  }

  function AbortTx(env: Env, s: State, t: Audit.TxId): State {
    s.(txs := s.txs - {t}, audit := Audit.Step(env.codec, s.audit, Audit.Rollback(t)))
  }

  /** The row is locked and written, but its address has no index entry yet. A
      change of name leaves the address alone and needs none. */
  function ClaimUserRow(env: Env, s: State, t: Audit.TxId): State
    requires t in s.txs
  {
    var tx := s.txs[t];
    var row := NewUserRow(s.tables, tx.request);
    if UserRowLocked(s, t, tx.request.user) then s
    else if row.None? then AbortTx(env, s, t)
    else s.(txs := s.txs[t := tx.(userRow := row, stage := if tx.request.ChangeName? then Appending else PassIndex)])
  }

  /** A committed entry refuses the address; an entry that may come or go makes the
      statement wait, with its row still locked. */
  function PassEmailIndex(env: Env, s: State, t: Audit.TxId): State
    requires t in s.txs && s.txs[t].userRow.Some?
  {
    var tx := s.txs[t];
    var email := tx.userRow.value.email;
    if EmailTaken(env, s, t, tx.request.user, email) then AbortTx(env, s, t)
    else if EmailContended(env, s, t, tx.request.user, email) then s
    else s.(txs := s.txs[t := tx.(stage := if TouchesSecrets(tx.request) then WriteCredentials else Appending)])
  }

  function StoreCredential(env: Env, s: State, t: Audit.TxId): State
    requires t in s.txs
  {
    var tx := s.txs[t];
    var phc := NewCredential(s.tables, tx.request);
    if CredentialLocked(s, t, tx.request.user) then s
    else if phc.None? && tx.request.Bootstrap? then AbortTx(env, s, t)
    else s.(txs := s.txs[t := tx.(credential := phc, stage := WriteKeys)])
  }

  function StoreKeys(env: Env, s: State, t: Audit.TxId): State
    requires t in s.txs
  {
    var tx := s.txs[t];
    var row := NewKeyRow(s.tables, tx.request);
    if KeyRowLocked(s, t, tx.request.user) then s
    else if row.None? && tx.request.Bootstrap? then AbortTx(env, s, t)
    else s.(txs := s.txs[t := tx.(keyRow := row, stage := Appending)])
  }

  /** The next statement of the running `append` call. */
  function AppendStatement(s: State, t: Audit.TxId, now: Audit.Timestamp): Audit.Action
    requires t in s.txs && t in s.audit.txs
  {
    match s.audit.txs[t].phase
    case Idle => Audit.AcquireLock(t)
    case Locked => Audit.NextVal(t)
    case Drawn(_) => Audit.ReadTail(t)
    case TailRead(_, _) => Audit.Insert(t, DraftOf(s.txs[t]), now)
  }

  function AppendEvent(env: Env, s: State, t: Audit.TxId, now: Audit.Timestamp): State
    requires t in s.txs && t in s.audit.txs
  {
    var tx := s.txs[t];
    var next := if s.audit.txs[t].phase.TailRead? then Committing else Appending;
    s.(audit := Audit.Step(env.codec, s.audit, AppendStatement(s, t, now)),
       txs := s.txs[t := tx.(stage := next)])
  }

  function Write<T>(table: map<Uuid, T>, u: Uuid, row: Option<T>): map<Uuid, T> {
    if row.Some? then table[u := row.value] else table
  }

  function Publish(tables: Tables, tx: AccountTx): Tables {
    var u := tx.request.user;
    Tables(Write(tables.users, u, tx.userRow),
           Write(tables.credentials, u, tx.credential),
           Write(tables.keys, u, tx.keyRow))
  }

  function CommitTx(env: Env, s: State, t: Audit.TxId): State
    requires t in s.txs
  {
    State(Publish(s.tables, s.txs[t]), s.txs - {t}, Audit.Step(env.codec, s.audit, Audit.Commit(t)),
          s.settled + [s.txs[t].request])
  }

  datatype Action =
    /** A handler opens its transaction. */
    | Start(t: Audit.TxId, request: Request)
    /** Its next statement runs, or waits. */
    | Run(t: Audit.TxId, now: Audit.Timestamp)
    /** It fails and rolls back, at any point. */
    | Abort(t: Audit.TxId)
    /** Any other service appends to the same log. */
    | Background(a: Audit.Action)

  function FirstStage(r: Request): Stage {
    if TouchesUser(r) then ClaimRow else WriteCredentials
  }

  /** Every handler but `bootstrap` has authenticated an existing user. */
  predicate MayStart(s: State, t: Audit.TxId, r: Request) {
    t !in s.txs && t !in s.audit.txs && (r.Bootstrap? || r.user in s.tables.users)
  }

  /** Other services run their own transactions and never emit the three event
      types the profile is replayed from. */
  predicate MayInterfere(s: State, a: Audit.Action) {
    a.t !in s.txs && (a.Insert? ==> a.draft.eventType !in {BOOTSTRAPPED, NAME_CHANGED, EMAIL_CHANGED})
  }

  function Step(env: Env, s: State, a: Action): State {
    match a
    case Start(t, r) =>
      if MayStart(s, t, r)
      then s.(txs := s.txs[t := AccountTx(r, FirstStage(r), None, None, None)],
              audit := Audit.Step(env.codec, s.audit, Audit.Begin(t)))
      else s
    case Run(t, now) =>
      if t !in s.txs || t !in s.audit.txs then s
      else (
        match s.txs[t].stage
        case ClaimRow => ClaimUserRow(env, s, t)
        case PassIndex => if s.txs[t].userRow.Some? then PassEmailIndex(env, s, t) else s
        case WriteCredentials => StoreCredential(env, s, t)
        case WriteKeys => StoreKeys(env, s, t)
        case Appending => AppendEvent(env, s, t, now)
        case Committing => CommitTx(env, s, t))
    case Abort(t) =>
      if t in s.txs then AbortTx(env, s, t) else s
    case Background(b) =>
      if MayInterfere(s, b) then s.(audit := Audit.Step(env.codec, s.audit, b)) else s
  }

  function Exec(env: Env, s: State, actions: seq<Action>): State
    decreases |actions|
  {
    if actions == [] then s else Exec(env, Step(env, s, actions[0]), actions[1..])
  }

  ghost predicate Reachable(env: Env, s: State) {
    exists actions :: s == Exec(env, EMPTY, actions)
  }
}
