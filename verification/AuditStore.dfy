/** The audit crate as its callers use it: transactions on a shared database
    object, with `append` running its four statements inside one of them. */
module AuditStore {
  import opened Prelude
  import opened AuditLog
  import Paging = AuditPaging

  /** The statements of one `append` call. */
  function AppendStatements(t: TxId, draft: Draft, now: Timestamp): seq<Action> {
    [AcquireLock(t), NextVal(t), ReadTail(t), Insert(t, draft, now)]
  }

  lemma ExecFour(c: Codec, s: State, a: Action, b: Action, d: Action, e: Action)
    ensures Exec(c, s, [a, b, d, e]) == Step(c, Step(c, Step(c, Step(c, s, a), b), d), e)
  {
    ExecAppend(c, s, [a], [b, d, e]);
    ExecAppend(c, Step(c, s, a), [b], [d, e]);
    ExecAppend(c, Step(c, Step(c, s, a), b), [d], [e]);
    assert [a, b, d, e] == [a] + [b, d, e] && [b, d, e] == [b] + [d, e] && [d, e] == [d] + [e];
  }

  /** What a whole `append` does to the database: nothing but wait while somebody
      else holds the lock, otherwise one more pending row under the next number. */
  lemma AppendEffect(c: Codec, s: State, t: TxId, draft: Draft, now: Timestamp)
    requires t in s.txs && s.txs[t].phase == Idle && s.sequence < I64_MAX
    ensures var s' := Exec(c, s, AppendStatements(t, draft, now));
            if s.holder == None || s.holder == Some(t) then
              var tx := s.txs[t];
              var e := NewEvent(c, s.sequence + 1, TailHash(c, s.log + tx.pending), draft, now);
              && s' == State(s.log, s.sequence + 1, Some(t), s.txs[t := Tx(Idle, tx.pending + [e])])
              && e.occurredAtMicros == now.seconds * 1_000_000 + now.nanos / 1_000
              && e.actorUserId == (if draft.actor.Some? then Some(draft.actor.value.userId) else None)
              && e.actorDisplayName == (if draft.actor.Some? then Some(draft.actor.value.displayName) else None)
              && e.appId == draft.appId && e.eventType == draft.eventType && e.eventData == draft.eventData
            else s' == s
  {
    NewEventColumns(c, s.sequence + 1, TailHash(c, s.log + s.txs[t].pending), draft, now);
    ExecFour(c, s, AcquireLock(t), NextVal(t), ReadTail(t), Insert(t, draft, now));
    if s.holder == None || s.holder == Some(t) {
      var tx := s.txs[t];
      var s1 := Step(c, s, AcquireLock(t));
      var s2 := Step(c, s1, NextVal(t));
      var s3 := Step(c, s2, ReadTail(t));
      assert s1.txs[t] == tx.(phase := Locked);
      assert s2.txs[t] == tx.(phase := Drawn(s.sequence + 1));
      assert s3.txs[t] == tx.(phase := TailRead(s.sequence + 1, TailHash(c, s.log + tx.pending)));
      var e := NewEvent(c, s.sequence + 1, TailHash(c, s.log + tx.pending), draft, now);
      assert Step(c, s3, Insert(t, draft, now)).txs == s.txs[t := Tx(Idle, tx.pending + [e])];
    }
  }

  /** Why the log is not contiguous: a transaction that appends and rolls back
      leaves everything as it was except the sequence, whose number is gone. */
  lemma RollbackBurnsNumber(c: Codec, s: State, t: TxId, draft: Draft, now: Timestamp)
    requires t !in s.txs && s.holder == None && s.sequence < I64_MAX
    ensures Exec(c, s, [Begin(t)] + AppendStatements(t, draft, now) + [Rollback(t)])
         == s.(sequence := s.sequence + 1)
  {
    var begun := Step(c, s, Begin(t));
    ExecAppend(c, s, [Begin(t)] + AppendStatements(t, draft, now), [Rollback(t)]);
    ExecAppend(c, s, [Begin(t)], AppendStatements(t, draft, now));
    AppendEffect(c, begun, t, draft, now);
    var appended := Exec(c, begun, AppendStatements(t, draft, now));
    assert appended.txs - {t} == s.txs;
  }

  // ------------------------------------------------------------- gaps in the numbering

  /** The numbers a transaction has drawn and not yet committed. */
  function InHand(tx: Tx): nat {
    |tx.pending| + if tx.phase.Drawn? || tx.phase.TailRead? then 1 else 0
  }

  function Held(s: State): nat {
    if s.holder.Some? && s.holder.value in s.txs then InHand(s.txs[s.holder.value]) else 0
  }

  function BurntBy(s: State, a: Action): nat {
    if a.Rollback? && a.t in s.txs then InHand(s.txs[a.t]) else 0
  }

  /** The numbers that rollbacks have given up over a run. */
  function Burnt(c: Codec, s: State, actions: seq<Action>): nat
    decreases |actions|
  {
    if actions == [] then 0 else BurntBy(s, actions[0]) + Burnt(c, Step(c, s, actions[0]), actions[1..])
  }

  lemma StepCounts(c: Codec, s: State, a: Action)
    requires Inv(c, s)
    ensures var s' := Step(c, s, a);
            s'.sequence - |s'.log| - Held(s') == s.sequence - |s.log| - Held(s) + BurntBy(s, a)
  {
    if a.Commit? || a.Rollback? { CloseCounts(c, s, a); }
  }

  lemma CloseCounts(c: Codec, s: State, a: Action)
    requires a.Commit? || a.Rollback?
    requires forall t <- s.txs :: s.holder != Some(t) ==> s.txs[t] == Tx(Idle, [])
    ensures var s' := Step(c, s, a);
            s'.sequence - |s'.log| - Held(s') == s.sequence - |s.log| - Held(s) + BurntBy(s, a)
  {}

  /** Every number drawn is committed, in hand, or burnt. */
  lemma {:induction false} NumbersAreAccountedFor(c: Codec, s: State, actions: seq<Action>)
    requires Inv(c, s)
    ensures var end := Exec(c, s, actions);
            end.sequence - |end.log| - Held(end) == s.sequence - |s.log| - Held(s) + Burnt(c, s, actions)
    decreases |actions|
  {
    if actions != [] {
      StepCounts(c, s, actions[0]);
      StepKeepsInv(c, s, actions[0]);
      NumbersAreAccountedFor(c, Step(c, s, actions[0]), actions[1..]);
    }
  }

  ghost predicate FromOne(s: State) {
    && s.sequence >= 0
    && (forall e <- s.log :: e.seqno >= 1)
    && (forall t <- s.txs :: forall e <- s.txs[t].pending :: e.seqno >= 1)
    && (forall t <- s.txs :: (s.txs[t].phase.Drawn? || s.txs[t].phase.TailRead?) ==> s.txs[t].phase.seqno >= 1)
  }

  lemma {:induction false} ExecFromOne(c: Codec, s: State, actions: seq<Action>)
    requires FromOne(s)
    ensures FromOne(Exec(c, s, actions))
    decreases |actions|
  {
    if actions != [] {
      assert FromOne(Step(c, s, actions[0]));
      ExecFromOne(c, Step(c, s, actions[0]), actions[1..]);
    }
  }

  ghost predicate Contiguous(log: seq<Event>) {
    forall i :: 0 <= i < |log| ==> log[i].seqno == i + 1
  }

  lemma {:induction false} FullIsContiguous(log: seq<Event>, n: int)
    requires Increasing(log) && |log| == n
    requires forall e <- log :: 1 <= e.seqno <= n
    ensures Contiguous(log)
  {
    if n > 0 {
      var front := Front(log);
      assert Last(log) in log;
      forall e <- front ensures 1 <= e.seqno <= n - 1 {
        assert e in log;
        var i :| 0 <= i < |front| && front[i] == e;
        assert log[i].seqno < log[n - 1].seqno;
      }
      FullIsContiguous(front, n - 1);
      if n > 1 { assert log[n - 2] == front[n - 2]; }
      assert forall i :: 0 <= i < n - 1 ==> log[i] == front[i];
    }
  }

  /** Exactly when the committed numbers are 1, 2, 3 and so on up to the last one drawn:
      when no rollback has burnt one. */
  lemma ContiguousIffNothingBurnt(c: Codec, actions: seq<Action>)
    requires Exec(c, EMPTY, actions).holder == None
    ensures var s := Exec(c, EMPTY, actions);
            (forall i :: 0 <= i < |s.log| ==> s.log[i].seqno == i + 1) && |s.log| == s.sequence
            <==> Burnt(c, EMPTY, actions) == 0
  {
    var s := Exec(c, EMPTY, actions);
    ReachableInv(c, []);
    NumbersAreAccountedFor(c, EMPTY, actions);
    ExecFromOne(c, EMPTY, actions);
    CommittedLogIsAlwaysValid(c, s);
    if Burnt(c, EMPTY, actions) == 0 {
      FullIsContiguous(s.log, s.sequence);
    }
  }

  /** How an append call ends. */
  datatype Appended = Inserted(event: Event) | Waiting | Exhausted

  class AuditDatabase {
    const codec: Codec
    var log: seq<Event>
    var sequence: int
    var holder: Option<TxId>
    var txs: map<TxId, Tx>

    ghost function Model(): State
      reads this
    {
      State(log, sequence, holder, txs)
    }

    constructor (c: Codec)
      ensures codec == c && Model() == EMPTY && Inv(c, Model())
    {
      codec := c;
      log, sequence, holder, txs := [], 0, None, map[];
      new;
      assert Links(c, []) == [];
    }

    method BeginTransaction(t: TxId)
      requires t !in txs
      modifies this
      ensures Model() == Step(codec, old(Model()), Begin(t))
    {
      txs := txs[t := Tx(Idle, [])];
    }

    /** `pg_advisory_xact_lock`: false when the caller has to wait. */
    method Lock(t: TxId) returns (acquired: bool)
      requires t in txs && txs[t].phase == Idle
      modifies this`holder, this`txs
      ensures Model() == Step(codec, old(Model()), AcquireLock(t))
      ensures acquired <==> old(holder) == None || old(holder) == Some(t)
    {
      acquired := holder == None || holder == Some(t);
      if acquired {
        holder := Some(t);
        txs := txs[t := txs[t].(phase := Locked)];
      }
    }

    /** `nextval`: false when the sequence is exhausted, which the database reports as an
        error. */
    method DrawNumber(t: TxId) returns (drawn: bool)
      requires t in txs && txs[t].phase == Locked
      modifies this`sequence, this`txs
      ensures Model() == Step(codec, old(Model()), NextVal(t))
      ensures drawn <==> old(sequence) < 0x7fff_ffff_ffff_ffff
      ensures sequence == if drawn then old(sequence) + 1 else old(sequence)
    {
      drawn := sequence < I64_MAX;
      if drawn {
        sequence := sequence + 1;
        txs := txs[t := txs[t].(phase := Drawn(sequence))];
      }
    }

    method FetchTail(t: TxId)
      requires t in txs && txs[t].phase.Drawn?
      modifies this`txs
      ensures Model() == Step(codec, old(Model()), ReadTail(t))
    {
      var prevHash := TailHash(codec, log + txs[t].pending);
      txs := txs[t := txs[t].(phase := TailRead(txs[t].phase.seqno, prevHash))];
    }

    method InsertEvent(t: TxId, draft: Draft, now: Timestamp) returns (e: Event)
      requires t in txs && txs[t].phase.TailRead?
      modifies this`txs
      ensures Model() == Step(codec, old(Model()), Insert(t, draft, now))
      ensures txs[t].pending == old(txs[t].pending) + [e] && e.seqno == old(txs[t].phase.seqno)
      ensures e.occurredAtMicros == now.seconds * 1_000_000 + now.nanos / 1_000
      ensures e.actorUserId == if draft.actor.Some? then Some(draft.actor.value.userId) else None
      ensures e.actorDisplayName == if draft.actor.Some? then Some(draft.actor.value.displayName) else None
      ensures e.appId == draft.appId && e.eventType == draft.eventType && e.eventData == draft.eventData
      ensures e.prevHash == old(txs[t].phase.prevHash)
      ensures e.hash == codec.hash(e.prevHash + codec.canon(Content(
                e.actorDisplayName, e.actorUserId, e.appId, e.eventData, e.eventType,
                Timestamp(now.seconds, now.nanos / 1_000 * 1_000), e.seqno)))
    {
      NewEventColumns(codec, txs[t].phase.seqno, txs[t].phase.prevHash, draft, now);
      e := NewEvent(codec, txs[t].phase.seqno, txs[t].phase.prevHash, draft, now);
      txs := txs[t := Tx(Idle, txs[t].pending + [e])];
    }

    /** `append`: waits (nothing happens) while another transaction holds the lock, and
        fails, the lock taken, when no number is left; otherwise the new row is visible
        to this transaction only, links to the newest row it sees, and recomputes after
        storage. */
    method Append(t: TxId, draft: Draft, now: Timestamp) returns (r: Appended)
      requires t in txs && txs[t].phase == Idle
      modifies this`sequence, this`holder, this`txs
      ensures Model() == Exec(codec, old(Model()), AppendStatements(t, draft, now))
      ensures r.Waiting? <==> old(holder).Some? && old(holder) != Some(t)
      ensures r.Exhausted? <==> !r.Waiting? && old(sequence) >= 0x7fff_ffff_ffff_ffff
      ensures r.Waiting? ==> Model() == old(Model())
      ensures r.Exhausted? ==> txs == old(txs)[t := old(txs)[t].(phase := Locked)] && sequence == old(sequence)
      ensures t in txs
      ensures r.Inserted? ==> txs[t].pending == old(txs[t].pending) + [r.event] && r.event.seqno == old(sequence) + 1
      ensures r.Inserted? ==> r.event.occurredAtMicros == now.seconds * 1_000_000 + now.nanos / 1_000
      ensures r.Inserted? ==>
                && r.event.actorUserId == (if draft.actor.Some? then Some(draft.actor.value.userId) else None)
                && r.event.actorDisplayName == (if draft.actor.Some? then Some(draft.actor.value.displayName) else None)
                && r.event.appId == draft.appId
                && r.event.eventType == draft.eventType && r.event.eventData == draft.eventData
      ensures r.Inserted? ==>
                var visible := old(log + txs[t].pending);
                if visible == [] then r.event.prevHash == codec.hash(Ascii("sylva-audit-genesis"))
                else exists last <- visible ::
                       r.event.prevHash == last.hash && forall e <- visible :: e.seqno <= last.seqno
      ensures r.Inserted? ==>
                var e := r.event;
                e.hash == codec.hash(e.prevHash + codec.canon(Content(
                  e.actorDisplayName, e.actorUserId, e.appId, e.eventData, e.eventType,
                  Timestamp(now.seconds, now.nanos / 1_000 * 1_000), e.seqno)))
    {
      ghost var before := Model();
      ExecFour(codec, before, AcquireLock(t), NextVal(t), ReadTail(t), Insert(t, draft, now));
      var acquired := Lock(t);
      if !acquired {
        return Waiting;
      }
      var drawn := DrawNumber(t);
      if !drawn {
        return Exhausted;
      }
      FetchTail(t);
      var e := InsertEvent(t, draft, now);
      r := Inserted(e);
    }

    method CommitTransaction(t: TxId)
      requires t in txs && txs[t].phase == Idle
      modifies this`log, this`holder, this`txs
      ensures Model() == Step(codec, old(Model()), Commit(t))
      ensures log == old(log) + old(txs[t].pending)
    {
      log := log + txs[t].pending;
      txs := txs - {t};
      holder := if holder == Some(t) then None else holder;
    }

    /** The drawn numbers are not given back. */
    method RollbackTransaction(t: TxId)
      requires t in txs
      modifies this`holder, this`txs
      ensures Model() == Step(codec, old(Model()), Rollback(t))
      ensures sequence == old(sequence)
    {
      txs := txs - {t};
      holder := if holder == Some(t) then None else holder;
    }

    /** In a log as appenders leave it, the newest matching rows below the cursor, newest
        first; short of the limit only when there are no more. */
    method List(f: Paging.ListFilter, before: Option<int>, requested: Option<nat>) returns (page: seq<Event>)
      requires Increasing(log)
      ensures page == Paging.Slice(Paging.Descending(log, f, before), 0, Paging.PageSize(requested))
      ensures forall e <- page ::
                && e in log && (before.Some? ==> e.seqno < before.value)
                && (f.actor.Some? ==> e.actorUserId == f.actor)
                && (f.since.Some? ==> e.occurredAtMicros > f.since.value)
                && (f.eventType.Some? ==> e.eventType == f.eventType.value) && f.search(e)
      ensures |page| <= 200 && (requested.None? ==> |page| <= 50)
      ensures |page| < (if requested.None? then 50 else Max(1, Min(requested.value, 200))) ==>
                forall e <- log ::
                  && (before.Some? ==> e.seqno < before.value)
                  && (f.actor.Some? ==> e.actorUserId == f.actor)
                  && (f.since.Some? ==> e.occurredAtMicros > f.since.value)
                  && (f.eventType.Some? ==> e.eventType == f.eventType.value) && f.search(e)
                  ==> e in page
    {
      Paging.PageIsSelected(log, f, before, Paging.PageSize(requested));
      page := Paging.Page(log, f, before, Paging.PageSize(requested));
      Paging.PageIsPrefix(log, f, before, Paging.PageSize(requested));
      if |page| < Paging.PageSize(requested) {
        Paging.ShortPageIsAll(log, f, before, Paging.PageSize(requested));
      }
    }

    method CountFiltered(f: Paging.ListFilter) returns (count: nat)
      ensures count == |Paging.Hits(log, f, None)|
    {
      Paging.CountIsHits(log, f);
      count := Paging.CountFiltered(log, f);
    }
  }
}
