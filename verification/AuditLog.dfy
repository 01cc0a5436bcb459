/** The appender of `crates/audit`: transactions that take the advisory lock,
    draw a sequence number, read the tail of the log, insert, and commit or roll
    back, in any interleaving. */
module AuditLog {
  import opened Prelude
  import Chain = AuditChain

  // ---------------------------------------------------------------- timestamps

  type SubSecond = n: int | 0 <= n < 1_000_000_000

  /** A UTC instant to the nanosecond (leap seconds excluded). */
  datatype Timestamp = Timestamp(seconds: int, nanos: SubSecond)

  function TruncateToMicros(ts: Timestamp): Timestamp {
    ts.(nanos := ts.nanos / 1_000 * 1_000)
  }

  /** A `timestamptz` column holds whole microseconds. */
  function ToStored(ts: Timestamp): int {
    ts.seconds * 1_000_000 + ts.nanos / 1_000
  }

  function FromStored(micros: int): Timestamp {
    Timestamp(micros / 1_000_000, micros % 1_000_000 * 1_000)
  }

  /** Reading a stored instant back gives its truncation: a value survives the
      round trip exactly when it was truncated before. */
  lemma StorageRoundTrip(ts: Timestamp)
    ensures FromStored(ToStored(ts)) == TruncateToMicros(ts) == Timestamp(ts.seconds, ts.nanos / 1_000 * 1_000)
    ensures FromStored(ToStored(ts)) == ts <==> TruncateToMicros(ts) == ts
    ensures TruncateToMicros(TruncateToMicros(ts)) == TruncateToMicros(ts)
  {
    var n := ts.nanos / 1_000;
    assert 0 <= n < 1_000_000;
    assert (ts.seconds * 1_000_000 + n) / 1_000_000 == ts.seconds;
  }

  // -------------------------------------------------------------------- events

  /** Event payloads are flat JSON objects of strings. */
  type Json = map<string, string>

  datatype Actor = Actor(userId: Uuid, displayName: string)

  /** The hashed fields, in the order of the `Canonical` struct. */
  datatype Content = Content(
    actorDisplayName: Option<string>,
    actorUserId: Option<Uuid>,
    appId: Option<string>,
    eventData: Json,
    eventType: string,
    occurredAt: Timestamp,
    seqno: int)

  /** A row of `audit.events`. */
  datatype Event = Event(
    seqno: int,
    occurredAtMicros: int,
    actorUserId: Option<Uuid>,
    actorDisplayName: Option<string>,
    appId: Option<string>,
    eventType: string,
    eventData: Json,
    prevHash: Bytes,
    hash: Bytes)

  /** The hash function and the JSON serializer, both arbitrary. */
  datatype Codec = Codec(hash: Hash, canon: Content -> Bytes)

  /** The arguments of `append`. */
  datatype Draft = Draft(actor: Option<Actor>, appId: Option<string>, eventType: string, eventData: Json)

  /** What a verifier re-canonicalises after reading a row back. */
  function StoredContent(e: Event): Content {
    Content(e.actorDisplayName, e.actorUserId, e.appId, e.eventData, e.eventType,
            FromStored(e.occurredAtMicros), e.seqno)
  }

  function LinkOf(c: Codec, e: Event): Chain.Link {
    Chain.Link(c.canon(StoredContent(e)), e.prevHash, e.hash)
  }

  function Links(c: Codec, log: seq<Event>): (r: seq<Chain.Link>)
    ensures |r| == |log|
    ensures forall i :: 0 <= i < |log| ==> r[i] == LinkOf(c, log[i])
  {
    seq(|log|, i requires 0 <= i < |log| => LinkOf(c, log[i]))
  }

  /** Hashes what is about to be stored: the clock reading is truncated first. */
  function NewEvent(c: Codec, seqno: int, prevHash: Bytes, d: Draft, now: Timestamp): Event {
    var occurredAt := TruncateToMicros(now);
    var actorUserId := if d.actor.Some? then Some(d.actor.value.userId) else None;
    var actorDisplayName := if d.actor.Some? then Some(d.actor.value.displayName) else None;
    var content := Content(actorDisplayName, actorUserId, d.appId, d.eventData, d.eventType, occurredAt, seqno);
    Event(seqno, ToStored(occurredAt), actorUserId, actorDisplayName, d.appId, d.eventType, d.eventData,
          prevHash, Chain.ComputeHash(c.hash, prevHash, c.canon(content)))
  }

  /** The row recomputes from what the database gives back, because truncation
      comes before hashing. */
  lemma NewEventVerifies(c: Codec, seqno: int, prevHash: Bytes, d: Draft, now: Timestamp)
    ensures var e := NewEvent(c, seqno, prevHash, d, now);
            && e.seqno == seqno && e.prevHash == prevHash
            && e.hash == Chain.ComputeHash(c.hash, prevHash, c.canon(StoredContent(e)))
  {
    StorageRoundTrip(now);
    StorageRoundTrip(TruncateToMicros(now));
  }

  /** Column by column: the clock to the microsecond, the caller's arguments, and the hash
      of the previous hash and the canonical bytes of all seven hashed fields. */
  lemma NewEventColumns(c: Codec, seqno: int, prevHash: Bytes, d: Draft, now: Timestamp)
    ensures var e := NewEvent(c, seqno, prevHash, d, now);
            && e.seqno == seqno && e.prevHash == prevHash
            && e.occurredAtMicros == now.seconds * 1_000_000 + now.nanos / 1_000
            && e.actorUserId == (if d.actor.Some? then Some(d.actor.value.userId) else None)
            && e.actorDisplayName == (if d.actor.Some? then Some(d.actor.value.displayName) else None)
            && e.appId == d.appId && e.eventType == d.eventType && e.eventData == d.eventData
            && e.hash == c.hash(prevHash + c.canon(Content(
                 e.actorDisplayName, e.actorUserId, d.appId, d.eventData, d.eventType,
                 Timestamp(now.seconds, now.nanos / 1_000 * 1_000), seqno)))
  {
    assert now.nanos / 1_000 * 1_000 / 1_000 == now.nanos / 1_000;
  }

  // ------------------------------------------------------------- state machine

  type TxId = nat

  /** How far the current `append` of a transaction has come. */
  datatype Phase = Idle | Locked | Drawn(seqno: int) | TailRead(seqno: int, prevHash: Bytes)

  datatype Tx = Tx(phase: Phase, pending: seq<Event>)

  /** `log` is the committed table in commit order. `sequence` is the last value
      handed out, and is not transactional. */
  datatype State = State(log: seq<Event>, sequence: int, holder: Option<TxId>, txs: map<TxId, Tx>)

  const EMPTY := State([], 0, None, map[])

  datatype Action =
    | Begin(t: TxId)
    | AcquireLock(t: TxId)
    | NextVal(t: TxId)
    | ReadTail(t: TxId)
    | Insert(t: TxId, draft: Draft, now: Timestamp)
    | Commit(t: TxId)
    | Rollback(t: TxId)

  /** `ORDER BY seqno DESC LIMIT 1`, whatever the order of the rows. */
  function Newest(rows: seq<Event>): (e: Event)
    requires |rows| > 0
    ensures e in rows
    ensures forall x <- rows :: x.seqno <= e.seqno
  {
    if |rows| == 1 then rows[0]
    else
      var rest := Newest(rows[1..]);
      if rows[0].seqno >= rest.seqno then rows[0] else rest
  }

  /** The hash a new row links to, seen from inside a transaction: committed rows
      and its own. */
  function TailHash(c: Codec, visible: seq<Event>): Bytes {
    if visible == [] then Chain.GenesisHash(c.hash) else Newest(visible).hash
  }

  /** Releasing the transaction also releases the advisory lock. */
  function Close(s: State, t: TxId): State {
    s.(txs := s.txs - {t}, holder := if s.holder == Some(t) then None else s.holder)
  }

  /** One statement. A statement that has to wait leaves the state alone. */
  function Step(c: Codec, s: State, a: Action): State {
    match a
    case Begin(t) =>
      if t in s.txs then s else s.(txs := s.txs[t := Tx(Idle, [])])
    case AcquireLock(t) =>
      if t in s.txs && s.txs[t].phase == Idle && (s.holder == None || s.holder == Some(t))
      then s.(holder := Some(t), txs := s.txs[t := s.txs[t].(phase := Locked)])
      else s
    case NextVal(t) =>
      if t in s.txs && s.txs[t].phase == Locked && s.sequence < I64_MAX
      then s.(sequence := s.sequence + 1, txs := s.txs[t := s.txs[t].(phase := Drawn(s.sequence + 1))])
      else s
    case ReadTail(t) =>
      if t in s.txs && s.txs[t].phase.Drawn?
      then
        var tx := s.txs[t];
        s.(txs := s.txs[t := tx.(phase := TailRead(tx.phase.seqno, TailHash(c, s.log + tx.pending)))])
      else s
    case Insert(t, draft, now) =>
      if t in s.txs && s.txs[t].phase.TailRead?
      then
        var tx := s.txs[t];
        var e := NewEvent(c, tx.phase.seqno, tx.phase.prevHash, draft, now);
        s.(txs := s.txs[t := Tx(Idle, tx.pending + [e])])
      else s
    case Commit(t) =>
      if t in s.txs && s.txs[t].phase == Idle
      then Close(s, t).(log := s.log + s.txs[t].pending)
      else s
    case Rollback(t) =>
      if t in s.txs then Close(s, t) else s
  }

  function Exec(c: Codec, s: State, actions: seq<Action>): State
    decreases |actions|
  {
    if actions == [] then s else Exec(c, Step(c, s, actions[0]), actions[1..])
  }

  // ----------------------------------------------------------------- invariant

  ghost predicate Increasing(log: seq<Event>) {
    forall i, j :: 0 <= i < j < |log| ==> log[i].seqno < log[j].seqno
  }

  /** Strictly increasing in `seqno`, linked from genesis, every hash recomputes
      from the stored row. Numbers may be missing: rollbacks leave gaps. */
  ghost predicate ValidLog(c: Codec, log: seq<Event>) {
    Increasing(log) && Chain.Verifies(c.hash, Links(c, log))
  }

  /** The rows the lock holder has inserted but not yet committed. */
  function HolderRows(s: State): seq<Event> {
    if s.holder.Some? && s.holder.value in s.txs then s.txs[s.holder.value].pending else []
  }

  ghost predicate Below(rows: seq<Event>, n: int) {
    forall e <- rows :: e.seqno < n
  }

  ghost predicate PhaseOk(c: Codec, s: State, phase: Phase, rows: seq<Event>) {
    match phase
    case Idle => true
    case Locked => true
    case Drawn(n) => n <= s.sequence && Below(rows, n)
    case TailRead(n, prev) =>
      n <= s.sequence && Below(rows, n) && prev == Chain.Head(c.hash, Links(c, rows))
  }

  ghost predicate Inv(c: Codec, s: State) {
    && (s.holder.Some? ==> s.holder.value in s.txs && s.txs[s.holder.value] != Tx(Idle, []))
    && (forall t <- s.txs :: s.holder != Some(t) ==> s.txs[t] == Tx(Idle, []))
    && ValidLog(c, s.log + HolderRows(s))
    && Below(s.log + HolderRows(s), s.sequence + 1)
    && (s.holder.Some? ==> PhaseOk(c, s, s.txs[s.holder.value].phase, s.log + HolderRows(s)))
  }

  lemma NewestIsLast(rows: seq<Event>)
    requires |rows| > 0 && Increasing(rows)
    ensures Newest(rows) == Last(rows)
  {
    var e := Newest(rows);
    var i :| 0 <= i < |rows| && rows[i] == e;
    assert Last(rows) in rows;
  }

  lemma TailHashIsHead(c: Codec, rows: seq<Event>)
    requires Increasing(rows)
    ensures TailHash(c, rows) == Chain.Head(c.hash, Links(c, rows))
  {
    if rows != [] {
      NewestIsLast(rows);
    }
  }

  lemma {:induction false} ValidPrefix(c: Codec, log: seq<Event>, more: seq<Event>)
    requires ValidLog(c, log + more)
    ensures ValidLog(c, log)
  {
    if more == [] {
      assert log + more == log;
    } else {
      var all := log + more;
      assert Front(all) == log + Front(more);
      assert Links(c, Front(all)) == Front(Links(c, all));
      ValidPrefix(c, log, Front(more));
    }
  }

  lemma ExtendValid(c: Codec, rows: seq<Event>, e: Event)
    requires ValidLog(c, rows) && Below(rows, e.seqno)
    requires e.prevHash == Chain.Head(c.hash, Links(c, rows))
    requires e.hash == Chain.ComputeHash(c.hash, e.prevHash, c.canon(StoredContent(e)))
    ensures ValidLog(c, rows + [e])
  {
    var links := Links(c, rows + [e]);
    assert Front(links) == Links(c, rows);
    assert Last(links) == LinkOf(c, e);
  }

  /** A statement that only moves the holder's phase keeps the invariant when
      the new phase is right. */
  lemma PhaseChangeKeepsInv(c: Codec, s: State, t: TxId, phase: Phase, sequence: int)
    requires Inv(c, s) && t in s.txs
    requires s.holder == Some(t) || s.holder == None
    requires s.sequence <= sequence
    requires phase != Idle && PhaseOk(c, s.(sequence := sequence), phase, s.log + s.txs[t].pending)
    ensures Inv(c, State(s.log, sequence, Some(t), s.txs[t := s.txs[t].(phase := phase)]))
  {
    var s' := State(s.log, sequence, Some(t), s.txs[t := s.txs[t].(phase := phase)]);
    assert HolderRows(s') == HolderRows(s);
  }

  lemma ReadingStepKeepsInv(c: Codec, s: State, a: Action)
    requires Inv(c, s)
    requires a.AcquireLock? || a.NextVal? || a.ReadTail?
    ensures Inv(c, Step(c, s, a))
  {
    var s' := Step(c, s, a);
    if s' != s {
      var tx := s.txs[a.t];
      if a.AcquireLock? {
        PhaseChangeKeepsInv(c, s, a.t, Locked, s.sequence);
      } else {
        assert s.holder == Some(a.t) && tx.pending == HolderRows(s);
        if a.NextVal? {
          PhaseChangeKeepsInv(c, s, a.t, Drawn(s.sequence + 1), s.sequence + 1);
          assert s' == State(s.log, s.sequence + 1, Some(a.t), s.txs[a.t := tx.(phase := Drawn(s.sequence + 1))]);
        } else {
          TailHashIsHead(c, s.log + tx.pending);
          var phase := TailRead(tx.phase.seqno, TailHash(c, s.log + tx.pending));
          PhaseChangeKeepsInv(c, s, a.t, phase, s.sequence);
          assert s' == State(s.log, s.sequence, Some(a.t), s.txs[a.t := tx.(phase := phase)]);
        }
      }
    }
  }

  lemma BeginKeepsInv(c: Codec, s: State, a: Action)
    requires Inv(c, s) && a.Begin?
    ensures Inv(c, Step(c, s, a))
  {
    assert HolderRows(Step(c, s, a)) == HolderRows(s);
  }

  lemma InsertKeepsInv(c: Codec, s: State, a: Action)
    requires Inv(c, s) && a.Insert?
    ensures Inv(c, Step(c, s, a))
  {
    var s' := Step(c, s, a);
    if s' != s {
      var phase, rows := s.txs[a.t].phase, s.log + HolderRows(s);
      var e := NewEvent(c, phase.seqno, phase.prevHash, a.draft, a.now);
      NewEventVerifies(c, phase.seqno, phase.prevHash, a.draft, a.now);
      ExtendValid(c, rows, e);
      assert s'.log + HolderRows(s') == rows + [e];
      assert Below(rows + [e], s.sequence + 1);
    }
  }

  lemma CloseKeepsInv(c: Codec, s: State, a: Action)
    requires Inv(c, s) && (a.Commit? || a.Rollback?)
    ensures Inv(c, Step(c, s, a))
  {
    var s' := Step(c, s, a);
    if s' != s {
      CloseKeepsRows(c, s, a);
      if s.holder == Some(a.t) && a.Rollback? {
        ValidPrefix(c, s.log, HolderRows(s));
      }
    }
  }

  /** Visible rows, the holder's included, survive unless the holder rolls back. */
  lemma CloseKeepsRows(c: Codec, s: State, a: Action)
    requires (a.Commit? || a.Rollback?) && Step(c, s, a) != s
    requires forall t <- s.txs :: s.holder != Some(t) ==> s.txs[t] == Tx(Idle, [])
    ensures var s' := Step(c, s, a);
            s'.log + HolderRows(s') == if s.holder == Some(a.t) && a.Rollback? then s.log else s.log + HolderRows(s)
  {}

  lemma StepKeepsInv(c: Codec, s: State, a: Action)
    requires Inv(c, s)
    ensures Inv(c, Step(c, s, a))
  {
    match a
    case Begin(_) => BeginKeepsInv(c, s, a);
    case Insert(_, _, _) => InsertKeepsInv(c, s, a);
    case Commit(_) => CloseKeepsInv(c, s, a);
    case Rollback(_) => CloseKeepsInv(c, s, a);
    case _ => ReadingStepKeepsInv(c, s, a);
  }

  lemma {:induction false} ExecKeepsInv(c: Codec, s: State, actions: seq<Action>)
    requires Inv(c, s)
    ensures Inv(c, Exec(c, s, actions))
    decreases |actions|
  {
    if actions != [] {
      StepKeepsInv(c, s, actions[0]);
      ExecKeepsInv(c, Step(c, s, actions[0]), actions[1..]);
    }
  }

  /** Some interleaving leads here from the empty database. */
  ghost predicate Reachable(c: Codec, s: State) {
    exists actions :: s == Exec(c, EMPTY, actions)
  }

  lemma ReachableInv(c: Codec, actions: seq<Action>)
    ensures Inv(c, Exec(c, EMPTY, actions))
  {
    assert Links(c, []) == [];
    ExecKeepsInv(c, EMPTY, actions);
  }

  lemma {:induction false} ExecAppend(c: Codec, s: State, a: seq<Action>, b: seq<Action>)
    ensures Exec(c, s, a + b) == Exec(c, Exec(c, s, a), b)
    decreases |a|
  {
    if a == [] {
      assert a + b == b;
    } else {
      assert (a + b)[1..] == a[1..] + b;
      ExecAppend(c, Step(c, s, a[0]), a[1..], b);
    }
  }

  /** Every interleaving of appending transactions, with any commits and
      rollbacks, leaves a committed log that is strictly increasing in `seqno`
      (so commit order is `seqno` order) and that an outside verifier accepts. */
  lemma CommittedLogIsAlwaysValid(c: Codec, s: State)
    requires Reachable(c, s)
    ensures ValidLog(c, s.log) && Below(s.log, s.sequence + 1)
    ensures forall i, j :: 0 <= i < j < |s.log| ==> s.log[i].seqno < s.log[j].seqno
  {
    var actions :| s == Exec(c, EMPTY, actions);
    ReachableInv(c, actions);
    ValidPrefix(c, s.log, HolderRows(s));
    assert forall e <- s.log :: e in s.log + HolderRows(s);
  }

  /** Row by row, down to the columns: in every reachable committed log each row links to
      the one before it, or to genesis, and its hash recomputes from what is stored. */
  lemma CommittedRowRecomputes(c: Codec, s: State, i: nat)
    requires Reachable(c, s) && i < |s.log|
    ensures var e := s.log[i];
            && e.prevHash == (if i == 0 then c.hash(Ascii("sylva-audit-genesis")) else s.log[i - 1].hash)
            && e.hash == c.hash(e.prevHash + c.canon(Content(
                 e.actorDisplayName, e.actorUserId, e.appId, e.eventData, e.eventType,
                 Timestamp(e.occurredAtMicros / 1_000_000, e.occurredAtMicros % 1_000_000 * 1_000), e.seqno)))
  {
    CommittedLogIsAlwaysValid(c, s);
    ValidRow(c, s.log, i);
  }

  lemma ValidRow(c: Codec, log: seq<Event>, i: nat)
    requires ValidLog(c, log) && i < |log|
    ensures log[i].prevHash == (if i == 0 then c.hash(Ascii("sylva-audit-genesis")) else log[i - 1].hash)
    ensures log[i].hash == c.hash(log[i].prevHash + c.canon(StoredContent(log[i])))
  {
    var links := Links(c, log);
    Chain.VerifiesRowByRow(c.hash, links);
    assert Chain.RowVerifies(c.hash, links, i);
    assert links[i] == LinkOf(c, log[i]);
    if i > 0 { assert links[i - 1] == LinkOf(c, log[i - 1]); }
  }

  /** A statement touches no transaction but its own, and no committed row. */
  lemma StepFrame(c: Codec, s: State, a: Action, o: TxId)
    requires o != a.t
    ensures var s' := Step(c, s, a);
            && (o in s'.txs <==> o in s.txs)
            && (o in s.txs ==> s'.txs[o] == s.txs[o])
            && (a.Commit? || s'.log == s.log)
  {
  }

  /** Committed rows are never rewritten or reordered: the log only grows at its
      end. */
  lemma {:induction false} LogOnlyGrows(c: Codec, s: State, actions: seq<Action>)
    ensures s.log <= Exec(c, s, actions).log
    decreases |actions|
  {
    if actions != [] {
      LogOnlyGrows(c, Step(c, s, actions[0]), actions[1..]);
    }
  }
}
