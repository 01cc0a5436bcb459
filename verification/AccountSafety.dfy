/** What every interleaving of the account RPCs keeps. */
module AccountSafety {
  import opened Prelude
  import Audit = AuditLog
  import opened Accounts

  // ----------------------------------------------------------------- invariant

  /** Password hash and key row of a user, folded from the committed requests. */
  function Secrets(settled: seq<Request>, u: Uuid): Option<(string, KeyRow)> {
    if settled == [] then None
    else
      var acc := Secrets(Front(settled), u);
      var r := Last(settled);
      if r.user != u then acc
      else if r.Bootstrap? then Some((r.phc, r.keyRow))
      else if r.ChangePassword? && acc.Some? then Some((r.phc, acc.value.1.(wrap := r.wrap)))
      else acc
  }

  function Lookup<T>(table: map<Uuid, T>, u: Uuid): Option<T> {
    if u in table then Some(table[u]) else None
  }

  function LookupSecrets(tables: Tables, u: Uuid): Option<(string, KeyRow)> {
    if u in tables.credentials && u in tables.keys then Some((tables.credentials[u], tables.keys[u])) else None
  }

  /** The profile columns replay from the log, the secrets from the requests. */
  ghost predicate TablesOk(s: State) {
    && s.tables.users.Keys == s.tables.credentials.Keys == s.tables.keys.Keys
    && (forall u: Uuid :: Replay(s.audit.log, u) == Lookup(s.tables.users, u))
    && (forall u: Uuid :: Secrets(s.settled, u) == LookupSecrets(s.tables, u))
  }

  predicate StageOk(r: Request, stage: Stage) {
    match r
    case Bootstrap(_, _, _, _, _, _) => true
    case ChangePassword(_, _, _, _) => stage != ClaimRow && stage != PassIndex
    case ChangeName(_, _) => stage != PassIndex && stage != WriteCredentials && stage != WriteKeys
    case ChangeEmail(_, _) => stage != WriteCredentials && stage != WriteKeys
  }

  predicate Describes(e: Audit.Event, d: Audit.Draft)
    requires d.actor.Some?
  {
    && e.actorUserId == Some(d.actor.value.userId)
    && e.actorDisplayName == Some(d.actor.value.displayName)
    && e.eventType == d.eventType
    && e.eventData == d.eventData
  }

  predicate AuditOk(tx: AccountTx, a: Audit.Tx) {
    if Rank(tx.stage) < 4 then a == Audit.Tx(Audit.Idle, [])
    else if tx.stage == Appending then a.pending == []
    else a.phase == Audit.Idle && |a.pending| == 1 && Describes(a.pending[0], DraftOf(tx))
  }

  /** Rows written under a lock are still what the request would write now. */
  predicate RowsOk(tables: Tables, tx: AccountTx) {
    var r := tx.request;
    && (r.Bootstrap? || r.user in tables.users)
    && StageOk(r, tx.stage)
    && (tx.userRow.Some? <==> TouchesUser(r) && Rank(tx.stage) > 0)
    && (tx.credential.Some? <==> TouchesSecrets(r) && Rank(tx.stage) > 2)
    && (tx.keyRow.Some? <==> TouchesSecrets(r) && Rank(tx.stage) > 3)
    && (tx.userRow.Some? ==> tx.userRow == NewUserRow(tables, r))
    && (tx.credential.Some? ==> tx.credential == NewCredential(tables, r))
    && (tx.keyRow.Some? ==> tx.keyRow == NewKeyRow(tables, r))
  }

  ghost predicate TxOk(s: State, t: Audit.TxId)
    requires t in s.txs
  {
    t in s.audit.txs && AuditOk(s.txs[t], s.audit.txs[t]) && RowsOk(s.tables, s.txs[t])
  }

  /** Row locks exclude each other. */
  predicate LocksDisjoint(a: AccountTx, b: AccountTx) {
    a.request.user == b.request.user ==>
      && !(a.userRow.Some? && b.userRow.Some?)
      && !(a.credential.Some? && b.credential.Some?)
      && !(a.keyRow.Some? && b.keyRow.Some?)
  }

  ghost predicate TxsOk(s: State) {
    && (forall t <- s.txs :: TxOk(s, t))
    && (forall t <- s.txs, o <- s.txs :: t != o ==> LocksDisjoint(s.txs[t], s.txs[o]))
  }

  predicate Foreign(rows: seq<Audit.Event>) {
    forall e <- rows :: e.eventType !in {BOOTSTRAPPED, NAME_CHANGED, EMAIL_CHANGED}
  }

  /** Transactions of other services append foreign events only. */
  ghost predicate BackgroundOk(s: State) {
    forall t <- s.audit.txs :: t !in s.txs ==> Foreign(s.audit.txs[t].pending)
  }

  ghost predicate Inv(env: Env, s: State) {
    Audit.Inv(env.codec, s.audit) && TablesOk(s) && TxsOk(s) && BackgroundOk(s)
  }

  // ------------------------------------------------------------- preservation

  /** A step that changes nothing but one transaction, ours. */
  lemma OwnTxKeepsTxs(s: State, s': State, t: Audit.TxId)
    requires TxsOk(s) && t in s.txs && t in s'.txs
    requires s'.tables == s.tables && s'.txs == s.txs[t := s'.txs[t]]
    requires forall o <- s.txs :: o != t ==> o in s'.audit.txs && s'.audit.txs[o] == s.audit.txs[o]
    requires TxOk(s', t)
    requires forall o <- s.txs :: o != t ==> LocksDisjoint(s'.txs[t], s.txs[o])
    ensures TxsOk(s')
  {
    forall o <- s'.txs ensures TxOk(s', o) {
      if o != t {
        assert TxOk(s, o);
      }
    }
    forall o <- s'.txs, p <- s'.txs | o != p ensures LocksDisjoint(s'.txs[o], s'.txs[p]) {
      if o != t && p != t {
        assert LocksDisjoint(s.txs[o], s.txs[p]);
      }
    }
  }

  /** A new transaction, with nothing written, joins the others. */
  lemma NewTxKeepsTxs(s: State, t: Audit.TxId, r: Request, audit: Audit.State)
    requires TxsOk(s) && MayStart(s, t, r)
    requires audit.txs == s.audit.txs[t := Audit.Tx(Audit.Idle, [])]
    ensures TxsOk(s.(txs := s.txs[t := AccountTx(r, FirstStage(r), None, None, None)], audit := audit))
  {
    var s' := s.(txs := s.txs[t := AccountTx(r, FirstStage(r), None, None, None)], audit := audit);
    forall o <- s'.txs ensures TxOk(s', o) {
      if o != t { assert TxOk(s, o); }
    }
  }

  lemma StartKeepsInv(env: Env, s: State, t: Audit.TxId, r: Request)
    requires Inv(env, s)
    ensures Inv(env, Step(env, s, Start(t, r)))
  {
    var s' := Step(env, s, Start(t, r));
    if MayStart(s, t, r) {
      Audit.StepKeepsInv(env.codec, s.audit, Audit.Begin(t));
      assert s'.audit == s.audit.(txs := s.audit.txs[t := Audit.Tx(Audit.Idle, [])]);
      NewTxKeepsTxs(s, t, r, s'.audit);
      SameTables(s, s');
    }
  }

  lemma SameTables(s: State, s': State)
    requires TablesOk(s)
    requires s'.tables == s.tables && s'.audit.log == s.audit.log && s'.settled == s.settled
    ensures TablesOk(s')
  {}

  lemma DropKeepsTxs(s: State, t: Audit.TxId, audit: Audit.State)
    requires TxsOk(s) && BackgroundOk(s) && audit.txs == s.audit.txs - {t}
    ensures var s' := s.(txs := s.txs - {t}, audit := audit);
            TxsOk(s') && BackgroundOk(s')
  {
    var s' := s.(txs := s.txs - {t}, audit := audit);
    forall o <- s'.txs ensures TxOk(s', o) {
      assert TxOk(s, o);
    }
  }

  lemma AbortAudit(env: Env, s: Audit.State, t: Audit.TxId)
    requires Audit.Inv(env.codec, s) && t in s.txs
    ensures var s' := Audit.Step(env.codec, s, Audit.Rollback(t));
            Audit.Inv(env.codec, s') && s'.txs == s.txs - {t} && s'.log == s.log
  {
    Audit.StepKeepsInv(env.codec, s, Audit.Rollback(t));
  }

  /** Dropping a transaction touches nobody else. */
  lemma AbortKeepsInv(env: Env, s: State, t: Audit.TxId)
    requires Inv(env, s) && t in s.txs
    ensures Inv(env, AbortTx(env, s, t))
  {
    var s' := AbortTx(env, s, t);
    assert TxOk(s, t);
    AbortAudit(env, s.audit, t);
    DropKeepsTxs(s, t, s'.audit);
    SameTables(s, s');
  }

  /** A statement that writes or locks something for its own transaction. */
  lemma RestageKeepsInv(env: Env, s: State, t: Audit.TxId, tx: AccountTx)
    requires Inv(env, s) && t in s.txs && t in s.audit.txs
    requires AuditOk(tx, s.audit.txs[t]) && RowsOk(s.tables, tx)
    requires forall o <- s.txs :: o != t ==> LocksDisjoint(tx, s.txs[o])
    ensures Inv(env, s.(txs := s.txs[t := tx]))
  {
    var s' := s.(txs := s.txs[t := tx]);
    OwnTxKeepsTxs(s, s', t);
    SameTables(s, s');
  }

  lemma ClaimKeepsInv(env: Env, s: State, t: Audit.TxId)
    requires Inv(env, s) && t in s.txs && s.txs[t].stage == ClaimRow
    ensures Inv(env, ClaimUserRow(env, s, t))
  {
    var s' := ClaimUserRow(env, s, t);
    assert TxOk(s, t);
    if s' == AbortTx(env, s, t) {
      AbortKeepsInv(env, s, t);
    } else if s' != s {
      OwnRowIsFree(s, t);
      RestageKeepsInv(env, s, t, s'.txs[t]);
    }
  }

  /** Whoever gets a lock is the only one of its user to hold it. */
  lemma OwnRowIsFree(s: State, t: Audit.TxId)
    requires TxsOk(s) && t in s.txs
    ensures var u := s.txs[t].request.user;
            forall o <- s.txs :: o != t && s.txs[o].request.user == u ==>
              && (!UserRowLocked(s, t, u) ==> s.txs[o].userRow.None?)
              && (!CredentialLocked(s, t, u) ==> s.txs[o].credential.None?)
              && (!KeyRowLocked(s, t, u) ==> s.txs[o].keyRow.None?)
              && LocksDisjoint(s.txs[t], s.txs[o])
  {}

  lemma PassIndexKeepsInv(env: Env, s: State, t: Audit.TxId)
    requires Inv(env, s) && t in s.txs && s.txs[t].stage == PassIndex
    ensures s.txs[t].userRow.Some? && Inv(env, PassEmailIndex(env, s, t))
  {
    assert TxOk(s, t);
    var s' := PassEmailIndex(env, s, t);
    if s' == AbortTx(env, s, t) {
      AbortKeepsInv(env, s, t);
    } else if s' != s {
      OwnRowIsFree(s, t);
      RestageKeepsInv(env, s, t, s'.txs[t]);
    }
  }

  lemma SameUsers(s: State, u: Uuid)
    requires TablesOk(s)
    ensures u in s.tables.users <==> u in s.tables.credentials
    ensures u in s.tables.users <==> u in s.tables.keys
  {}

  lemma StoreCredentialKeepsInv(env: Env, s: State, t: Audit.TxId)
    requires Inv(env, s) && t in s.txs && s.txs[t].stage == WriteCredentials
    ensures Inv(env, StoreCredential(env, s, t))
  {
    var s' := StoreCredential(env, s, t);
    assert TxOk(s, t);
    if s' == AbortTx(env, s, t) {
      AbortKeepsInv(env, s, t);
    } else if s' != s {
      SameUsers(s, s.txs[t].request.user);
      OwnRowIsFree(s, t);
      RestageKeepsInv(env, s, t, s'.txs[t]);
    }
  }

  lemma StoreKeysKeepsInv(env: Env, s: State, t: Audit.TxId)
    requires Inv(env, s) && t in s.txs && s.txs[t].stage == WriteKeys
    ensures Inv(env, StoreKeys(env, s, t))
  {
    var s' := StoreKeys(env, s, t);
    assert TxOk(s, t);
    if s' == AbortTx(env, s, t) {
      AbortKeepsInv(env, s, t);
    } else if s' != s {
      SameUsers(s, s.txs[t].request.user);
      OwnRowIsFree(s, t);
      RestageKeepsInv(env, s, t, s'.txs[t]);
    }
  }

  /** The audit part of an append statement, seen from its transaction. */
  lemma AppendAudit(env: Env, s: State, t: Audit.TxId, now: Audit.Timestamp)
    requires t in s.txs && t in s.audit.txs && s.txs[t].stage == Appending && s.audit.txs[t].pending == []
    ensures var s' := AppendEvent(env, s, t, now);
            && s'.audit.log == s.audit.log
            && t in s'.audit.txs && AuditOk(s'.txs[t], s'.audit.txs[t])
  {
    assert DraftOf(s.txs[t].(stage := Committing)) == DraftOf(s.txs[t]);
  }

  lemma AppendKeepsTxs(env: Env, s: State, t: Audit.TxId, now: Audit.Timestamp)
    requires TxsOk(s) && BackgroundOk(s) && t in s.txs && t in s.audit.txs && s.txs[t].stage == Appending
    ensures var s' := AppendEvent(env, s, t, now);
            TxsOk(s') && BackgroundOk(s') && s'.audit.log == s.audit.log
  {
    assert TxOk(s, t);
    AppendAudit(env, s, t, now);
    OtherAuditTxs(env, s.audit, AppendStatement(s, t, now));
    OwnTxKeepsTxs(s, AppendEvent(env, s, t, now), t);
  }

  lemma AppendKeepsInv(env: Env, s: State, t: Audit.TxId, now: Audit.Timestamp)
    requires Inv(env, s) && t in s.txs && t in s.audit.txs && s.txs[t].stage == Appending
    ensures Inv(env, AppendEvent(env, s, t, now))
  {
    Audit.StepKeepsInv(env.codec, s.audit, AppendStatement(s, t, now));
    AppendKeepsTxs(env, s, t, now);
    SameTables(s, AppendEvent(env, s, t, now));
  }

  lemma OtherAuditTxs(env: Env, s: Audit.State, a: Audit.Action)
    ensures var s' := Audit.Step(env.codec, s, a);
            forall o: Audit.TxId :: o != a.t ==>
              && (o in s'.txs <==> o in s.txs)
              && (o in s.txs ==> s'.txs[o] == s.txs[o])
  {
    forall o: Audit.TxId | o != a.t
      ensures var s' := Audit.Step(env.codec, s, a);
              && (o in s'.txs <==> o in s.txs)
              && (o in s.txs ==> s'.txs[o] == s.txs[o])
    {
      Audit.StepFrame(env.codec, s, a, o);
    }
  }

  lemma {:induction false} ForeignRowsDoNotReplay(log: seq<Audit.Event>, rows: seq<Audit.Event>, u: Uuid)
    requires Foreign(rows)
    ensures Replay(log + rows, u) == Replay(log, u)
  {
    if rows == [] {
      assert log + rows == log;
    } else {
      assert Front(log + rows) == log + Front(rows);
      assert Last(rows) in rows;
      ForeignRowsDoNotReplay(log, Front(rows), u);
    }
  }

  lemma BackgroundAudit(env: Env, s: Audit.State, a: Audit.Action)
    requires a.t in s.txs ==> Foreign(s.txs[a.t].pending)
    requires a.Insert? ==> a.draft.eventType !in {BOOTSTRAPPED, NAME_CHANGED, EMAIL_CHANGED}
    ensures var s' := Audit.Step(env.codec, s, a);
            && (a.t in s'.txs ==> Foreign(s'.txs[a.t].pending))
            && forall u: Uuid :: Replay(s'.log, u) == Replay(s.log, u)
  {
    var s' := Audit.Step(env.codec, s, a);
    if a.Commit? && s' != s {
      forall u: Uuid ensures Replay(s'.log, u) == Replay(s.log, u) {
        ForeignRowsDoNotReplay(s.log, s.txs[a.t].pending, u);
      }
    }
  }

  lemma BackgroundKeepsInv(env: Env, s: State, a: Audit.Action)
    requires Inv(env, s) && MayInterfere(s, a)
    ensures Inv(env, s.(audit := Audit.Step(env.codec, s.audit, a)))
  {
    var s' := s.(audit := Audit.Step(env.codec, s.audit, a));
    Audit.StepKeepsInv(env.codec, s.audit, a);
    OtherAuditTxs(env, s.audit, a);
    BackgroundAudit(env, s.audit, a);
    forall o <- s'.txs ensures TxOk(s', o) {
      assert TxOk(s, o);
    }
  }

  // -------------------------------------------------------------------- commit

  /** Our own rows become the committed ones. */
  lemma CommitTables(s: State, t: Audit.TxId, e: Audit.Event)
    requires TablesOk(s) && t in s.txs
    requires RowsOk(s.tables, s.txs[t]) && s.txs[t].stage == Committing
    requires Describes(e, DraftOf(s.txs[t]))
    ensures var tables := Publish(s.tables, s.txs[t]);
            && tables.users.Keys == tables.credentials.Keys == tables.keys.Keys
            && (forall u: Uuid :: Replay(s.audit.log + [e], u) == Lookup(tables.users, u))
            && (forall u: Uuid :: Secrets(s.settled + [s.txs[t].request], u) == LookupSecrets(tables, u))
  {
    var tables := Publish(s.tables, s.txs[t]);
    var r := s.txs[t].request;
    assert Front(s.audit.log + [e]) == s.audit.log;
    assert Front(s.settled + [r]) == s.settled;
    forall u: Uuid
      ensures Replay(s.audit.log + [e], u) == Lookup(tables.users, u)
      ensures Secrets(s.settled + [r], u) == LookupSecrets(tables, u)
    {
      assert Replay(s.audit.log, u) == Lookup(s.tables.users, u);
      assert Secrets(s.settled, u) == LookupSecrets(s.tables, u);
    }
  }

  /** Nobody else's written rows are disturbed by the commit: the locks were
      disjoint. */
  lemma CommitOthers(tables: Tables, tx: AccountTx, other: AccountTx)
    requires RowsOk(tables, tx) && RowsOk(tables, other) && LocksDisjoint(tx, other)
    ensures RowsOk(Publish(tables, tx), other)
  {
  }

  lemma CommitTxs(env: Env, s: State, t: Audit.TxId)
    requires TxsOk(s) && t in s.txs && s.txs[t].stage == Committing
    ensures TxsOk(CommitTx(env, s, t))
  {
    var s' := CommitTx(env, s, t);
    assert TxOk(s, t);
    OtherAuditTxs(env, s.audit, Audit.Commit(t));
    forall o <- s'.txs ensures TxOk(s', o) {
      assert TxOk(s, o);
      CommitOthers(s.tables, s.txs[t], s.txs[o]);
    }
  }

  lemma CommitTablesOk(env: Env, s: State, t: Audit.TxId)
    requires TablesOk(s) && t in s.txs && s.txs[t].stage == Committing && TxOk(s, t)
    ensures TablesOk(CommitTx(env, s, t))
  {
    var e := s.audit.txs[t].pending[0];
    assert CommitTx(env, s, t).audit.log == s.audit.log + [e];
    CommitTables(s, t, e);
  }

  lemma CommitBackground(env: Env, s: State, t: Audit.TxId)
    requires BackgroundOk(s) && t in s.txs && t in s.audit.txs && s.audit.txs[t].phase == Audit.Idle
    ensures BackgroundOk(CommitTx(env, s, t))
  {
  }

  lemma CommitKeepsInv(env: Env, s: State, t: Audit.TxId)
    requires Inv(env, s) && t in s.txs && s.txs[t].stage == Committing
    ensures Inv(env, CommitTx(env, s, t))
  {
    assert TxOk(s, t);
    CommitTablesOk(env, s, t);
    CommitTxs(env, s, t);
    CommitBackground(env, s, t);
    Audit.StepKeepsInv(env.codec, s.audit, Audit.Commit(t));
  }

  lemma StepKeepsInv(env: Env, s: State, a: Action)
    requires Inv(env, s)
    ensures Inv(env, Step(env, s, a))
  {
    match a
    case Start(t, r) => StartKeepsInv(env, s, t, r);
    case Abort(t) => if t in s.txs { AbortKeepsInv(env, s, t); }
    case Background(b) => if MayInterfere(s, b) { BackgroundKeepsInv(env, s, b); }
    case Run(t, now) =>
      if t in s.txs && t in s.audit.txs {
        match s.txs[t].stage
        case ClaimRow => ClaimKeepsInv(env, s, t);
        case PassIndex => PassIndexKeepsInv(env, s, t);
        case WriteCredentials => StoreCredentialKeepsInv(env, s, t);
        case WriteKeys => StoreKeysKeepsInv(env, s, t);
        case Appending => AppendKeepsInv(env, s, t, now);
        case Committing => CommitKeepsInv(env, s, t);
      }
  }

  lemma {:induction false} ExecKeepsInv(env: Env, s: State, actions: seq<Action>)
    requires Inv(env, s)
    ensures Inv(env, Exec(env, s, actions))
    decreases |actions|
  {
    if actions != [] {
      StepKeepsInv(env, s, actions[0]);
      ExecKeepsInv(env, Step(env, s, actions[0]), actions[1..]);
    }
  }

  lemma EmptyInv(env: Env)
    ensures Inv(env, EMPTY)
  {
    assert Audit.Exec(env.codec, Audit.EMPTY, []) == Audit.EMPTY;
    Audit.ReachableInv(env.codec, []);
  }

  lemma ReachableInv(env: Env, s: State)
    requires Reachable(env, s)
    ensures Inv(env, s)
  {
    var actions :| s == Exec(env, EMPTY, actions);
    EmptyInv(env);
    ExecKeepsInv(env, EMPTY, actions);
  }

  // --------------------------------------------------------------- main results

  /** The log reproduces the tables. In every reachable state the committed rows
      of `identity.users` are exactly what folding the committed audit events in
      `seqno` order gives, user by user. */
  lemma LogReproducesUsers(env: Env, s: State)
    requires Reachable(env, s)
    ensures Audit.ValidLog(env.codec, s.audit.log)
    ensures forall u: Uuid :: Replay(s.audit.log, u) == Lookup(s.tables.users, u)
  {
    ReachableInv(env, s);
    Audit.ValidPrefix(env.codec, s.audit.log, Audit.HolderRows(s.audit));
  }

  predicate SetsSecrets(r: Request, u: Uuid) {
    r.user == u && TouchesSecrets(r)
  }

  function WrapOf(r: Request): MasterWrap
    requires TouchesSecrets(r)
  {
    if r.Bootstrap? then r.keyRow.wrap else r.wrap
  }

  /** Password hash and wrap are those of request `i`, the latest to set them;
      the key pairs are those of bootstrap `b`. */
  ghost predicate SecretsFrom(settled: seq<Request>, u: Uuid, phc: string, row: KeyRow, i: nat, b: nat) {
    && b <= i < |settled|
    && SetsSecrets(settled[i], u)
    && (forall j :: i < j < |settled| ==> !SetsSecrets(settled[j], u))
    && settled[b].Bootstrap? && settled[b].user == u
    && phc == settled[i].phc
    && row == KeyRow(settled[b].keyRow.pairs, WrapOf(settled[i]))
  }

  lemma {:induction false} SecretsComeFromOneRequest(settled: seq<Request>, u: Uuid)
    requires Secrets(settled, u).Some?
    ensures exists i: nat, b: nat ::
              SecretsFrom(settled, u, Secrets(settled, u).value.0, Secrets(settled, u).value.1, i, b)
  {
    var front, r, n := Front(settled), Last(settled), |settled| - 1;
    var (phc, row) := Secrets(settled, u).value;
    if r.user == u && r.Bootstrap? {
      assert SecretsFrom(settled, u, phc, row, n, n);
    } else {
      SecretsComeFromOneRequest(front, u);
      var (phc0, row0) := Secrets(front, u).value;
      var i: nat, b: nat :| SecretsFrom(front, u, phc0, row0, i, b);
      if r.user == u && r.ChangePassword? {
        assert settled[b] == front[b];
        assert SecretsFrom(settled, u, phc, row, n, b);
      } else {
        assert forall j :: i < j < |front| ==> settled[j] == front[j];
        assert SecretsFrom(settled, u, phc, row, i, b);
      }
    }
  }

  /** Verifier and key wrap move together. A user's committed password hash and
      wrapped master key (with salt and parameters) come from the same committed
      request, the latest that set them; the key pairs are those of bootstrap. */
  lemma VerifierMatchesWrap(env: Env, s: State, u: Uuid)
    requires Reachable(env, s) && u in s.tables.users
    ensures u in s.tables.credentials && u in s.tables.keys
    ensures exists i: nat, b: nat ::
              && b <= i < |s.settled|
              && s.settled[i].user == u && (s.settled[i].Bootstrap? || s.settled[i].ChangePassword?)
              && s.settled[b].user == u && s.settled[b].Bootstrap?
              && s.tables.credentials[u] == s.settled[i].phc
              && s.tables.keys[u].wrap
                 == (if s.settled[i].Bootstrap? then s.settled[i].keyRow.wrap else s.settled[i].wrap)
              && s.tables.keys[u].pairs == s.settled[b].keyRow.pairs
              && forall j :: i < j < |s.settled| ==>
                   s.settled[j].user != u || !(s.settled[j].Bootstrap? || s.settled[j].ChangePassword?)
  {
    ReachableInv(env, s);
    assert Secrets(s.settled, u) == LookupSecrets(s.tables, u);
    SecretsComeFromOneRequest(s.settled, u);
    var i: nat, b: nat :| SecretsFrom(s.settled, u, s.tables.credentials[u], s.tables.keys[u], i, b);
    assert forall j :: i < j < |s.settled| ==> !SetsSecrets(s.settled[j], u);
  }

  /** A handler that fails leaves no trace but the numbers it has drawn. */
  lemma AbortLeavesNothing(env: Env, s: State, t: Audit.TxId)
    requires Inv(env, s) && t in s.txs
    ensures var s' := Step(env, s, Abort(t));
            && s'.tables == s.tables && s'.settled == s.settled && s'.txs == s.txs - {t}
            && s'.audit.log == s.audit.log && s'.audit.sequence == s.audit.sequence && t !in s'.audit.txs
            && s'.audit.holder != Some(t)
  {
    assert TxOk(s, t);
  }

  // ------------------------------------------------------------------ one bootstrap each

  ghost predicate BootstrappedOnce(settled: seq<Request>, users: map<Uuid, UserRow>) {
    && (forall r <- settled :: r.Bootstrap? ==> r.user in users)
    && (forall i, j :: 0 <= i < j < |settled| && settled[i].Bootstrap? && settled[j].Bootstrap? ==>
          settled[i].user != settled[j].user)
  }

  lemma OneMoreBootstrap(settled: seq<Request>, users: map<Uuid, UserRow>, r: Request, after: map<Uuid, UserRow>)
    requires BootstrappedOnce(settled, users) && users.Keys <= after.Keys
    requires r.Bootstrap? ==> r.user !in users && r.user in after
    ensures BootstrappedOnce(settled + [r], after)
  {
    forall i | 0 <= i < |settled| && settled[i].Bootstrap? ensures settled[i].user in users {
      assert settled[i] in settled;
    }
  }

  lemma StepBootstrapsOnce(env: Env, s: State, a: Action)
    requires Inv(env, s) && BootstrappedOnce(s.settled, s.tables.users)
    ensures BootstrappedOnce(Step(env, s, a).settled, Step(env, s, a).tables.users)
  {
    if a.Run? && a.t in s.txs && a.t in s.audit.txs && s.txs[a.t].stage == Committing {
      assert TxOk(s, a.t);
      OneMoreBootstrap(s.settled, s.tables.users, s.txs[a.t].request, Publish(s.tables, s.txs[a.t]).users);
    }
  }

  lemma {:induction false} ExecBootstrapsOnce(env: Env, s: State, actions: seq<Action>)
    requires Inv(env, s) && BootstrappedOnce(s.settled, s.tables.users)
    ensures BootstrappedOnce(Exec(env, s, actions).settled, Exec(env, s, actions).tables.users)
    decreases |actions|
  {
    if actions != [] {
      StepKeepsInv(env, s, actions[0]);
      StepBootstrapsOnce(env, s, actions[0]);
      ExecBootstrapsOnce(env, Step(env, s, actions[0]), actions[1..]);
    }
  }

  /** No committed account is ever created over another one. */
  lemma NobodyIsReplaced(env: Env, s: State, i: nat, j: nat)
    requires Reachable(env, s) && i < j < |s.settled|
    requires s.settled[i].Bootstrap? && s.settled[j].Bootstrap?
    ensures s.settled[i].user != s.settled[j].user
  {
    var actions :| s == Exec(env, EMPTY, actions);
    EmptyInv(env);
    ExecBootstrapsOnce(env, EMPTY, actions);
  }
}
