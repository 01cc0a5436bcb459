/** Two more consequences of the account RPCs' locking: the unique e-mail index is
    never violated, and transactions deadlock in one way only, by asking for each
    other's addresses. */
module AccountLiveness {
  import opened Prelude
  import Audit = AuditLog
  import opened Accounts
  import opened AccountSafety

  // ------------------------------------------------------------ unique e-mails

  predicate SameAddress(env: Env, a: string, b: string) {
    env.lower(a) == env.lower(b)
  }

  /** No two users share an address up to case, counting index entries that are
      written but not yet committed. */
  ghost predicate AddressesApart(env: Env, users: map<Uuid, UserRow>, txs: map<Audit.TxId, AccountTx>) {
    && (forall u <- users, v <- users :: u != v ==> !SameAddress(env, users[u].email, users[v].email))
    && (forall t <- txs, v <- users :: Indexed(txs[t]) && v != txs[t].request.user ==>
          !SameAddress(env, txs[t].userRow.value.email, users[v].email))
    && (forall t <- txs, o <- txs :: t != o && Indexed(txs[t]) && Indexed(txs[o]) ==>
          && txs[t].request.user != txs[o].request.user
          && !SameAddress(env, txs[t].userRow.value.email, txs[o].userRow.value.email))
  }

  ghost predicate EmailsUnique(env: Env, s: State) {
    AddressesApart(env, s.tables.users, s.txs)
  }

  /** Closing a transaction without publishing its row. */
  lemma DropTx(env: Env, users: map<Uuid, UserRow>, txs: map<Audit.TxId, AccountTx>, t: Audit.TxId)
    requires AddressesApart(env, users, txs)
    ensures AddressesApart(env, users, txs - {t})
  {
  }

  lemma PublishRow(env: Env, users: map<Uuid, UserRow>, txs: map<Audit.TxId, AccountTx>, t: Audit.TxId)
    requires AddressesApart(env, users, txs) && t in txs && Indexed(txs[t])
    ensures AddressesApart(env, users[txs[t].request.user := txs[t].userRow.value], txs - {t})
  {
  }

  /** A transaction that changes nothing but its stage. */
  lemma RestageTx(env: Env, users: map<Uuid, UserRow>, txs: map<Audit.TxId, AccountTx>, t: Audit.TxId, tx: AccountTx)
    requires AddressesApart(env, users, txs) && t in txs
    requires tx.request == txs[t].request && tx.userRow == txs[t].userRow && Indexed(tx) == Indexed(txs[t])
    ensures AddressesApart(env, users, txs[t := tx])
  {
  }

  /** A row that has no index entry yet is no address. */
  lemma AddUnindexed(env: Env, users: map<Uuid, UserRow>, txs: map<Audit.TxId, AccountTx>, t: Audit.TxId, tx: AccountTx)
    requires AddressesApart(env, users, txs) && !Indexed(tx)
    ensures AddressesApart(env, users, txs[t := tx])
  {
  }

  lemma AddIndexed(env: Env, users: map<Uuid, UserRow>, txs: map<Audit.TxId, AccountTx>, t: Audit.TxId, tx: AccountTx)
    requires AddressesApart(env, users, txs) && Indexed(tx)
    requires forall v <- users :: v != tx.request.user ==>
               !SameAddress(env, tx.userRow.value.email, users[v].email)
    requires forall o <- txs :: o != t && Indexed(txs[o]) ==>
               && txs[o].request.user != tx.request.user
               && !SameAddress(env, tx.userRow.value.email, txs[o].userRow.value.email)
    ensures AddressesApart(env, users, txs[t := tx])
  {
  }

  /** A change of name keeps the address the user already had. */
  lemma ClaimKeepsEmails(env: Env, s: State, t: Audit.TxId)
    requires EmailsUnique(env, s) && t in s.txs
    ensures EmailsUnique(env, ClaimUserRow(env, s, t))
  {
    var s', tx := ClaimUserRow(env, s, t), s.txs[t];
    DropTx(env, s.tables.users, s.txs, t);
    if s' != s && s' != AbortTx(env, s, t) {
      if tx.request.ChangeName? {
        assert !UserRowLocked(s, t, tx.request.user);
        AddIndexed(env, s.tables.users, s.txs, t, s'.txs[t]);
      } else {
        AddUnindexed(env, s.tables.users, s.txs, t, s'.txs[t]);
      }
    }
  }

  /** The index lets an address through only if nobody has it or may get it. */
  lemma AdmittedAddress(env: Env, s: State, t: Audit.TxId, v: Uuid)
    requires t in s.txs && s.txs[t].userRow.Some? && v in s.tables.users && v != s.txs[t].request.user
    requires !EmailTaken(env, s, t, s.txs[t].request.user, s.txs[t].userRow.value.email)
    requires !EmailContended(env, s, t, s.txs[t].request.user, s.txs[t].userRow.value.email)
    ensures !SameAddress(env, s.txs[t].userRow.value.email, s.tables.users[v].email)
  {
    if UserRowLocked(s, t, v) {
      var o :| o in s.txs && o != t && s.txs[o].userRow.Some? && s.txs[o].request.user == v;
      assert !Contends(env, s.tables.users, s.txs[o], s.txs[t].request.user, s.txs[t].userRow.value.email);
    }
  }

  lemma PassIndexKeepsEmails(env: Env, s: State, t: Audit.TxId)
    requires EmailsUnique(env, s) && t in s.txs && s.txs[t].userRow.Some?
    requires forall o <- s.txs :: o != t ==> LocksDisjoint(s.txs[t], s.txs[o])
    ensures EmailsUnique(env, PassEmailIndex(env, s, t))
  {
    var s', tx := PassEmailIndex(env, s, t), s.txs[t];
    DropTx(env, s.tables.users, s.txs, t);
    if s' != s && s' != AbortTx(env, s, t) {
      forall v <- s.tables.users | v != tx.request.user
        ensures !SameAddress(env, tx.userRow.value.email, s.tables.users[v].email)
      {
        AdmittedAddress(env, s, t, v);
      }
      forall o <- s.txs | o != t && Indexed(s.txs[o])
        ensures s.txs[o].request.user != tx.request.user
        ensures !SameAddress(env, tx.userRow.value.email, s.txs[o].userRow.value.email)
      {
        assert LocksDisjoint(tx, s.txs[o]);
        assert !Contends(env, s.tables.users, s.txs[o], tx.request.user, tx.userRow.value.email);
      }
      AddIndexed(env, s.tables.users, s.txs, t, s'.txs[t]);
    }
  }

  lemma RunKeepsEmails(env: Env, s: State, t: Audit.TxId, now: Audit.Timestamp)
    requires EmailsUnique(env, s) && t in s.txs && t in s.audit.txs
    requires forall o <- s.txs :: o != t ==> LocksDisjoint(s.txs[t], s.txs[o])
    ensures EmailsUnique(env, Step(env, s, Run(t, now)))
  {
    var s' := Step(env, s, Run(t, now));
    var tx := s.txs[t];
    DropTx(env, s.tables.users, s.txs, t);
    match tx.stage
    case ClaimRow => ClaimKeepsEmails(env, s, t);
    case PassIndex => if tx.userRow.Some? { PassIndexKeepsEmails(env, s, t); }
    case Committing =>
      if tx.userRow.Some? {
        PublishRow(env, s.tables.users, s.txs, t);
      }
    case _ =>
      if t in s'.txs {
        RestageTx(env, s.tables.users, s.txs, t, s'.txs[t]);
        assert s'.txs == s.txs[t := s'.txs[t]];
      }
  }

  lemma StepKeepsEmails(env: Env, s: State, a: Action)
    requires Inv(env, s) && EmailsUnique(env, s)
    ensures EmailsUnique(env, Step(env, s, a))
  {
    match a
    case Run(t, now) =>
      if t in s.txs && t in s.audit.txs {
        RunKeepsEmails(env, s, t, now);
      }
    case Start(t, r) =>
      AddUnindexed(env, s.tables.users, s.txs, t, AccountTx(r, FirstStage(r), None, None, None));
    case Abort(t) => DropTx(env, s.tables.users, s.txs, t);
    case Background(b) =>
  }

  lemma {:induction false} ExecKeepsEmails(env: Env, s: State, actions: seq<Action>)
    requires Inv(env, s) && EmailsUnique(env, s)
    ensures EmailsUnique(env, Exec(env, s, actions))
    decreases |actions|
  {
    if actions != [] {
      StepKeepsInv(env, s, actions[0]);
      StepKeepsEmails(env, s, actions[0]);
      ExecKeepsEmails(env, Step(env, s, actions[0]), actions[1..]);
    }
  }

  lemma ReachableEmails(env: Env, s: State)
    requires Reachable(env, s)
    ensures Inv(env, s) && EmailsUnique(env, s)
  {
    var actions :| s == Exec(env, EMPTY, actions);
    EmptyInv(env);
    ExecKeepsInv(env, EMPTY, actions);
    ExecKeepsEmails(env, EMPTY, actions);
  }

  /** `email_lower` stays unique among committed users under every interleaving,
      although each check sees only part of the concurrent writes. */
  lemma CommittedEmailsAreUnique(env: Env, s: State)
    requires Reachable(env, s)
    ensures forall u <- s.tables.users, v <- s.tables.users :: u != v ==>
              env.lower(s.tables.users[u].email) != env.lower(s.tables.users[v].email)
  {
    ReachableEmails(env, s);
    forall u <- s.tables.users, v <- s.tables.users | u != v
      ensures env.lower(s.tables.users[u].email) != env.lower(s.tables.users[v].email)
    {
      assert !SameAddress(env, s.tables.users[u].email, s.tables.users[v].email);
    }
  }

  // ------------------------------------------------------------------ deadlock

  /** The next statement of `t` cannot go on before `o` has ended. */
  predicate Waits(env: Env, s: State, t: Audit.TxId, o: Audit.TxId)
    requires t in s.txs && o in s.txs
  {
    var tx, other, u := s.txs[t], s.txs[o], s.txs[t].request.user;
    o != t &&
    match tx.stage
    case ClaimRow => other.userRow.Some? && other.request.user == u
    case PassIndex =>
      && tx.userRow.Some?
      && !EmailTaken(env, s, t, u, tx.userRow.value.email)
      && Contends(env, s.tables.users, other, u, tx.userRow.value.email)
    case WriteCredentials => other.credential.Some? && other.request.user == u
    case WriteKeys => other.keyRow.Some? && other.request.user == u
    case Appending => s.audit.holder == Some(o) && t in s.audit.txs && s.audit.txs[t].phase == Audit.Idle
    case Committing => false
  }

  type Graph = set<(Audit.TxId, Audit.TxId)>

  ghost predicate Leads(graph: Graph, t: Audit.TxId, among: set<Audit.TxId>) {
    exists o :: o in among && (t, o) in graph
  }

  /** A nonempty set every member of which has an edge to a member: it contains a
      circle, and whoever waits along the edges waits for ever. */
  ghost predicate Closed(graph: Graph, among: set<Audit.TxId>) {
    && among != {}
    && forall t {:trigger Leads(graph, t, among)} :: t in among ==> Leads(graph, t, among)
  }

  ghost function WaitGraph(env: Env, s: State): Graph {
    set t <- s.txs, o <- s.txs | Waits(env, s, t, o) :: (t, o)
  }

  /** Transactions that wait for one another: none of them can go on before another
      of them has ended. */
  ghost predicate Deadlocked(env: Env, s: State, waiting: set<Audit.TxId>) {
    waiting <= s.txs.Keys && Closed(WaitGraph(env, s), waiting)
  }

  /** `t` has locked its row and asks for the address that the row `o` has locked
      still has. */
  predicate WantsAddressOf(env: Env, s: State, t: Audit.TxId, o: Audit.TxId)
    requires t in s.txs && o in s.txs
  {
    var tx, v := s.txs[t], s.txs[o].request.user;
    && t != o && tx.stage == PassIndex && s.txs[o].stage == PassIndex
    && tx.userRow.Some? && s.txs[o].userRow.Some?
    && v in s.tables.users && v != tx.request.user
    && SameAddress(env, tx.userRow.value.email, s.tables.users[v].email)
  }

  ghost function SwapGraph(env: Env, s: State): Graph {
    set t <- s.txs, o <- s.txs | WantsAddressOf(env, s, t, o) :: (t, o)
  }

  ghost predicate AddressSwap(env: Env, s: State, swapping: set<Audit.TxId>) {
    swapping <= s.txs.Keys && Closed(SwapGraph(env, s), swapping)
  }

  /** Locks are taken in the order of the stages, so a wait that is not for an
      address leads to a transaction further on. */
  lemma WaitsForLater(env: Env, s: State, t: Audit.TxId, o: Audit.TxId)
    requires Inv(env, s) && t in s.txs && o in s.txs && Waits(env, s, t, o)
    ensures Rank(s.txs[t].stage) != 1 ==> Rank(s.txs[o].stage) > Rank(s.txs[t].stage) || s.audit.holder == Some(o)
    ensures Rank(s.txs[t].stage) <= 1 ==> s.txs[o].userRow.Some? && Rank(s.txs[o].stage) >= 1
  {
    assert TxOk(s, t) && TxOk(s, o);
  }

  /** Whoever holds the audit lock waits for nobody. */
  lemma HolderIsFree(env: Env, s: State, t: Audit.TxId, o: Audit.TxId)
    requires Inv(env, s) && t in s.txs && o in s.txs && s.audit.holder == Some(t)
    ensures !Waits(env, s, t, o) && Rank(s.txs[t].stage) >= 4
  {
    assert TxOk(s, t);
  }

  ghost function Ranks(s: State): map<Audit.TxId, nat> {
    map t <- s.txs :: Rank(s.txs[t].stage)
  }

  /** A wait leads to a later stage or to somebody who waits for nobody, unless it
      starts at stage 1. */
  ghost predicate Upward(ranks: map<Audit.TxId, nat>, free: set<Audit.TxId>, graph: Graph) {
    forall e <- graph ::
      && e.0 in ranks && e.1 in ranks && e.0 !in free
      && (ranks[e.0] != 1 ==> ranks[e.1] > ranks[e.0] || e.1 in free)
      && (ranks[e.0] <= 1 ==> ranks[e.1] >= 1)
  }

  lemma {:induction false} MostAdvanced(ranks: map<Audit.TxId, nat>, among: set<Audit.TxId>) returns (t: Audit.TxId)
    requires among != {} && among <= ranks.Keys
    ensures t in among && forall o <- among :: ranks[o] <= ranks[t]
    decreases |among|
  {
    t :| t in among;
    var rest := among - {t};
    assert forall o <- among :: o == t || o in rest;
    if rest != {} {
      var m := MostAdvanced(ranks, rest);
      if ranks[m] > ranks[t] {
        t := m;
      }
    }
  }

  /** Nobody in a circle has got past the address index. */
  lemma ClosedIsEarly(ranks: map<Audit.TxId, nat>, free: set<Audit.TxId>, graph: Graph, waiting: set<Audit.TxId>)
    requires Upward(ranks, free, graph) && Closed(graph, waiting) && waiting <= ranks.Keys
    ensures forall t <- waiting :: ranks[t] <= 1
  {
    var t := MostAdvanced(ranks, waiting);
    assert Leads(graph, t, waiting);
    var o :| o in waiting && (t, o) in graph;
    assert Leads(graph, o, waiting);
  }

  ghost function Holder(s: State): set<Audit.TxId> {
    if s.audit.holder.Some? then {s.audit.holder.value} else {}
  }

  lemma WaitGraphIsUpward(env: Env, s: State)
    requires Inv(env, s)
    ensures Upward(Ranks(s), Holder(s), WaitGraph(env, s))
  {
    var graph, ranks := WaitGraph(env, s), Ranks(s);
    forall e <- graph
      ensures e.0 in ranks && e.1 in ranks && e.0 !in Holder(s)
      ensures ranks[e.0] != 1 ==> ranks[e.1] > ranks[e.0] || e.1 in Holder(s)
      ensures ranks[e.0] <= 1 ==> ranks[e.1] >= 1
    {
      WaitsForLater(env, s, e.0, e.1);
      if s.audit.holder == Some(e.0) { HolderIsFree(env, s, e.0, e.1); }
    }
  }

  /** A wait for somebody who has no index entry either is a wait for the address of
      their committed row. */
  lemma EarlyWaitIsForAddress(env: Env, s: State, t: Audit.TxId, o: Audit.TxId)
    requires Inv(env, s) && t in s.txs && o in s.txs && Waits(env, s, t, o)
    requires s.txs[t].stage == PassIndex && Rank(s.txs[o].stage) <= 1
    ensures WantsAddressOf(env, s, t, o)
  {
    WaitsForLater(env, s, t, o);
    assert Rank(s.txs[o].stage) == 1 && s.txs[o].stage == PassIndex;
    assert !Indexed(s.txs[o]);
  }

  /** The committed holder of an address is its only one, so a locked row is no
      refusal. */
  lemma WantingIsWaiting(env: Env, s: State, t: Audit.TxId, o: Audit.TxId)
    requires EmailsUnique(env, s) && t in s.txs && o in s.txs && WantsAddressOf(env, s, t, o)
    ensures Waits(env, s, t, o)
  {
    var v, users := s.txs[o].request.user, s.tables.users;
    assert UserRowLocked(s, t, v);
    assert forall w <- users :: w != v ==> !SameAddress(env, users[w].email, users[v].email);
  }

  /** Exactly when transactions deadlock: when some of them have each locked their own
      row and ask for the address that another of them still has. Nothing else in the
      account handlers, and no row or audit lock, can close a circle. */
  lemma DeadlockIffAddressSwap(env: Env, s: State)
    requires Reachable(env, s)
    ensures (exists waiting :: Deadlocked(env, s, waiting)) <==> (exists swapping :: AddressSwap(env, s, swapping))
  {
    ReachableEmails(env, s);
    if waiting :| Deadlocked(env, s, waiting) {
      SwapInside(env, s, waiting);
    }
    if swapping :| AddressSwap(env, s, swapping) {
      SwapDeadlocks(env, s, swapping);
    }
  }

  lemma SwapDeadlocks(env: Env, s: State, swapping: set<Audit.TxId>)
    requires EmailsUnique(env, s) && AddressSwap(env, s, swapping)
    ensures Deadlocked(env, s, swapping)
  {
    forall e <- SwapGraph(env, s) ensures e in WaitGraph(env, s) {
      WantingIsWaiting(env, s, e.0, e.1);
    }
    MoreEdges(SwapGraph(env, s), WaitGraph(env, s), swapping);
  }

  lemma MoreEdges(few: Graph, many: Graph, among: set<Audit.TxId>)
    requires few <= many && Closed(few, among)
    ensures Closed(many, among)
  {
    forall t | t in among ensures Leads(many, t, among) {
      assert Leads(few, t, among);
    }
  }

  ghost function Passing(s: State, waiting: set<Audit.TxId>): set<Audit.TxId>
    requires waiting <= s.txs.Keys
  {
    set t <- waiting | s.txs[t].stage == PassIndex
  }

  /** Everybody in a deadlock waits for somebody who has locked a row and not yet
      passed the index. */
  lemma WaitsForPassing(env: Env, s: State, waiting: set<Audit.TxId>, t: Audit.TxId) returns (o: Audit.TxId)
    requires Inv(env, s) && Deadlocked(env, s, waiting) && t in waiting
    ensures o in Passing(s, waiting)
    ensures s.txs[t].stage == PassIndex ==> (t, o) in SwapGraph(env, s)
  {
    WaitGraphIsUpward(env, s);
    ClosedIsEarly(Ranks(s), Holder(s), WaitGraph(env, s), waiting);
    assert Leads(WaitGraph(env, s), t, waiting);
    o :| o in waiting && (t, o) in WaitGraph(env, s);
    assert Ranks(s)[o] <= 1 && Ranks(s)[t] <= 1;
    assert Rank(s.txs[o].stage) == 1;
    if s.txs[t].stage == PassIndex { EarlyWaitIsForAddress(env, s, t, o); }
  }

  lemma SwapInside(env: Env, s: State, waiting: set<Audit.TxId>)
    requires Inv(env, s) && Deadlocked(env, s, waiting)
    ensures AddressSwap(env, s, Passing(s, waiting))
  {
    var swapping := Passing(s, waiting);
    forall t | t in swapping ensures Leads(SwapGraph(env, s), t, swapping) {
      var o := WaitsForPassing(env, s, waiting, t);
    }
    var t :| t in waiting;
    var o := WaitsForPassing(env, s, waiting, t);
  }

  /** A statement that cannot run is waiting for somebody. */
  lemma StillWaits(env: Env, s: State, t: Audit.TxId, now: Audit.Timestamp)
    requires Inv(env, s) && t in s.txs && s.audit.sequence < I64_MAX
    requires s.audit.holder.Some? ==> s.audit.holder.value in s.txs
    requires Step(env, s, Run(t, now)) == s
    ensures exists o :: o in s.txs && Waits(env, s, t, o)
  {
    assert TxOk(s, t);
    if Rank(s.txs[t].stage) < 4 {
      EarlyStillWaits(env, s, t, now);
    } else {
      LateMovesOrWaits(env, s, t, now);
    }
  }

  lemma EarlyStillWaits(env: Env, s: State, t: Audit.TxId, now: Audit.Timestamp)
    requires t in s.txs && TxOk(s, t) && Rank(s.txs[t].stage) < 4
    requires Step(env, s, Run(t, now)) == s
    ensures exists o :: o in s.txs && Waits(env, s, t, o)
  {
    var tx, u := s.txs[t], s.txs[t].request.user;
    assert AbortTx(env, s, t).txs != s.txs by { assert t !in AbortTx(env, s, t).txs; }
    match tx.stage
    case ClaimRow =>
      assert ClaimUserRow(env, s, t) == s;
      assert UserRowLocked(s, t, u);
      var o :| o in s.txs && o != t && s.txs[o].userRow.Some? && s.txs[o].request.user == u;
      assert Waits(env, s, t, o);
    case PassIndex =>
      assert PassEmailIndex(env, s, t) == s;
      assert EmailContended(env, s, t, u, tx.userRow.value.email);
      var o :| o in s.txs && o != t && Contends(env, s.tables.users, s.txs[o], u, tx.userRow.value.email);
      assert Waits(env, s, t, o);
    case WriteCredentials =>
      assert StoreCredential(env, s, t) == s;
      assert CredentialLocked(s, t, u);
      var o :| o in s.txs && o != t && s.txs[o].credential.Some? && s.txs[o].request.user == u;
      assert Waits(env, s, t, o);
    case WriteKeys =>
      assert StoreKeys(env, s, t) == s;
      assert KeyRowLocked(s, t, u);
      var o :| o in s.txs && o != t && s.txs[o].keyRow.Some? && s.txs[o].request.user == u;
      assert Waits(env, s, t, o);
  }

  lemma LateMovesOrWaits(env: Env, s: State, t: Audit.TxId, now: Audit.Timestamp)
    requires t in s.txs && t in s.audit.txs && Rank(s.txs[t].stage) >= 4 && s.audit.sequence < I64_MAX
    requires s.audit.holder.Some? ==> s.audit.holder.value in s.txs
    ensures Step(env, s, Run(t, now)) != s || exists o :: o in s.txs && Waits(env, s, t, o)
  {
    if s.txs[t].stage == Committing {
      assert t !in CommitTx(env, s, t).txs;
    } else {
      var phase, s' := s.audit.txs[t].phase, AppendEvent(env, s, t, now);
      if phase.TailRead? {
        assert s'.txs[t].stage == Committing;
      } else if phase == Audit.Idle && s.audit.holder.Some? && s.audit.holder != Some(t) {
        assert Waits(env, s, t, s.audit.holder.value);
      } else {
        assert s'.audit.txs[t].phase != phase;
      }
    }
  }

  /** Whoever waits cannot run. */
  lemma WaitingStands(env: Env, s: State, t: Audit.TxId, o: Audit.TxId, now: Audit.Timestamp)
    requires t in s.txs && t in s.audit.txs && o in s.txs && Waits(env, s, t, o)
    ensures Step(env, s, Run(t, now)) == s
  {
    var u := s.txs[t].request.user;
    match s.txs[t].stage
    case ClaimRow => assert UserRowLocked(s, t, u);
    case PassIndex => assert EmailContended(env, s, t, u, s.txs[t].userRow.value.email);
    case WriteCredentials => assert CredentialLocked(s, t, u);
    case WriteKeys => assert KeyRowLocked(s, t, u);
    case Appending => assert s.txs[t := s.txs[t].(stage := Appending)] == s.txs;
    case Committing =>
  }

  /** `Waits` is what it says: a statement cannot run exactly when it waits for somebody. */
  lemma StandsIffWaits(env: Env, s: State, t: Audit.TxId, now: Audit.Timestamp)
    requires Inv(env, s) && t in s.txs && s.audit.sequence < I64_MAX
    requires s.audit.holder.Some? ==> s.audit.holder.value in s.txs
    ensures Step(env, s, Run(t, now)) == s <==> exists o :: o in s.txs && Waits(env, s, t, o)
  {
    assert TxOk(s, t);
    if Step(env, s, Run(t, now)) == s {
      StillWaits(env, s, t, now);
    }
    if o :| o in s.txs && Waits(env, s, t, o) {
      WaitingStands(env, s, t, o, now);
    }
  }

  /** Progress. In every reachable state with open account transactions some statement
      of one of them can run at once, unless there is an address swap, or another
      service is holding the audit lock. */
  lemma SomebodyCanMove(env: Env, s: State, now: Audit.Timestamp)
    requires Reachable(env, s) && s.txs != map[] && s.audit.sequence < I64_MAX
    requires s.audit.holder.Some? ==> s.audit.holder.value in s.txs
    ensures (exists t <- s.txs :: Step(env, s, Run(t, now)) != s) || (exists swapping :: AddressSwap(env, s, swapping))
  {
    ReachableEmails(env, s);
    if forall t <- s.txs :: Step(env, s, Run(t, now)) == s {
      AllWait(env, s, now);
      SwapInside(env, s, s.txs.Keys);
    }
  }

  lemma NotEmpty<T>(txs: map<Audit.TxId, T>)
    requires txs != map[]
    ensures txs.Keys != {}
  {
    var t :| t in txs;
    assert t in txs.Keys;
  }

  lemma StillLeads(env: Env, s: State, t: Audit.TxId, now: Audit.Timestamp)
    requires Inv(env, s) && t in s.txs && s.audit.sequence < I64_MAX
    requires s.audit.holder.Some? ==> s.audit.holder.value in s.txs
    requires Step(env, s, Run(t, now)) == s
    ensures Leads(WaitGraph(env, s), t, s.txs.Keys)
  {
    StillWaits(env, s, t, now);
    var o :| o in s.txs && Waits(env, s, t, o);
    assert (t, o) in WaitGraph(env, s);
  }

  lemma AllWait(env: Env, s: State, now: Audit.Timestamp)
    requires Inv(env, s) && s.txs != map[] && s.audit.sequence < I64_MAX
    requires s.audit.holder.Some? ==> s.audit.holder.value in s.txs
    requires forall t <- s.txs :: Step(env, s, Run(t, now)) == s
    ensures Deadlocked(env, s, s.txs.Keys)
  {
    forall t | t in s.txs.Keys ensures Leads(WaitGraph(env, s), t, s.txs.Keys) {
      StillLeads(env, s, t, now);
    }
    NotEmpty(s.txs);
  }

  /** And swaps do happen: from any reachable state in which nobody has an account
      transaction open, two users asking for each other's addresses are deadlocked after
      their first two statements, and one of them has to be aborted. */
  lemma TwoUsersCanSwap(env: Env, s: State, t: Audit.TxId, o: Audit.TxId, u: Uuid, v: Uuid, now: Audit.Timestamp)
    requires Reachable(env, s) && s.txs == map[] && t != o && t !in s.audit.txs && o !in s.audit.txs
    requires u in s.tables.users && v in s.tables.users && u != v
    ensures var swap := [Start(t, ChangeEmail(u, s.tables.users[v].email)),
                         Start(o, ChangeEmail(v, s.tables.users[u].email)), Run(t, now), Run(o, now)];
            AddressSwap(env, Exec(env, s, swap), {t, o})
  {
    var users := s.tables.users;
    var rt, ro := ChangeEmail(u, users[v].email), ChangeEmail(v, users[u].email);
    var swap := [Start(t, rt), Start(o, ro), Run(t, now), Run(o, now)];
    var s1 := Step(env, s, swap[0]);
    var s2 := Step(env, s1, swap[1]);
    var s3 := Step(env, s2, swap[2]);
    var s4 := Step(env, s3, swap[3]);
    ExecFour(env, s, swap);
    ClaimAlone(env, s2, t, now);
    ClaimAlone(env, s3, o, now);
    assert WantsAddressOf(env, s4, t, o) && WantsAddressOf(env, s4, o, t);
    assert (t, o) in SwapGraph(env, s4) && (o, t) in SwapGraph(env, s4);
    assert Leads(SwapGraph(env, s4), t, {t, o}) && Leads(SwapGraph(env, s4), o, {t, o});
  }

  lemma ClaimAlone(env: Env, s: State, t: Audit.TxId, now: Audit.Timestamp)
    requires t in s.txs && t in s.audit.txs && s.txs[t].stage == ClaimRow && s.txs[t].request.ChangeEmail?
    requires s.txs[t].request.user in s.tables.users
    requires forall o <- s.txs :: o != t ==> s.txs[o].request.user != s.txs[t].request.user
    ensures Step(env, s, Run(t, now))
         == s.(txs := s.txs[t := s.txs[t].(userRow := NewUserRow(s.tables, s.txs[t].request), stage := PassIndex)])
  {
  }

  lemma ExecFour(env: Env, s: State, run: seq<Action>)
    requires |run| == 4
    ensures Exec(env, s, run) == Step(env, Step(env, Step(env, Step(env, s, run[0]), run[1]), run[2]), run[3])
  {
    var s1 := Step(env, s, run[0]);
    var s2 := Step(env, s1, run[1]);
    var s3 := Step(env, s2, run[2]);
    ExecFrom(env, s, run, 0);
    ExecFrom(env, s1, run, 1);
    ExecFrom(env, s2, run, 2);
    ExecFrom(env, s3, run, 3);
    assert run[0..] == run && run[4..] == [];
  }

  lemma ExecFrom(env: Env, s: State, run: seq<Action>, i: nat)
    requires i < |run|
    ensures Exec(env, s, run[i..]) == Exec(env, Step(env, s, run[i]), run[i + 1..])
  {
    assert run[i..][1..] == run[i + 1..];
  }
}
