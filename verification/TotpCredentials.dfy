/** The authenticators of `crates/auth/src/user_totp.rs`: enrollment, and
    verification whose read and conditional update are separate statements, so
    that any number of requests and edits interleave. */
module TotpCredentials {
  import opened Prelude
  import opened Totp

  /** A row of `auth.totp_credentials`, with the secret decrypted. */
  datatype Credential = Credential(user: Uuid, name: string, secret: Bytes, verified: bool,
                                   lastUsedStep: Option<nat>)

  type RequestId = nat

  /** A row as a verification request has read it. */
  datatype Candidate = Candidate(id: Uuid, secret: Bytes)

  /** A request between its `SELECT` and its `UPDATE`. */
  datatype Verification = Verification(user: Uuid, code: string, unixTime: int, rows: seq<Candidate>)

  datatype Acceptance = Acceptance(id: Uuid, step: nat, user: Uuid, secret: Bytes, code: string, unixTime: int)

  /** `issued` are the ids ever handed out; `accepted` remembers the successful
      verifications in order. Neither is read by a statement. */
  datatype State = State(creds: map<Uuid, Credential>, open: map<RequestId, Verification>,
                         issued: set<Uuid>, accepted: seq<Acceptance>)

  const EMPTY := State(map[], map[], {}, [])

  datatype Action =
    | StartEnrollment(user: Uuid, secret: Bytes, id: Uuid)
    | Confirm(user: Uuid, id: Uuid, name: string)
    | Rename(user: Uuid, id: Uuid, name: string)
    | Delete(user: Uuid, id: Uuid)
    /** The `SELECT` of `verify_and_consume`; the database chooses the row order. */
    | Read(request: RequestId, user: Uuid, code: string, unixTime: int, order: seq<Uuid>)
    /** The matching loop and its conditional `UPDATE`. */
    | Consume(request: RequestId)

  /** `order` lists the verified rows of the user, each once. */
  ghost predicate ListsVerified(creds: map<Uuid, Credential>, user: Uuid, order: seq<Uuid>) {
    && (forall id :: id in order <==> id in creds && creds[id].user == user && creds[id].verified)
    && (forall i, j :: 0 <= i < j < |order| ==> order[i] != order[j])
  }

  function Candidates(creds: map<Uuid, Credential>, order: seq<Uuid>): (rows: seq<Candidate>)
    requires forall id <- order :: id in creds
    ensures |rows| == |order|
    ensures forall i :: 0 <= i < |order| ==> rows[i] == Candidate(order[i], creds[order[i]].secret)
  {
    seq(|order|, i requires 0 <= i < |order| => Candidate(order[i], creds[order[i]].secret))
  }

  /** The first row whose secret matches the code, with the matched step. */
  function FirstMatch(mac: MacFunction, rows: seq<Candidate>, code: string, unixTime: int): Option<(Candidate, nat)> {
    if rows == [] then None
    else
      var step := StepFor(mac, rows[0].secret, code, unixTime);
      if step.Some? then Some((rows[0], step.value)) else FirstMatch(mac, rows[1..], code, unixTime)
  }

  /** The `WHERE` clause of the consuming update. */
  predicate MayConsume(creds: map<Uuid, Credential>, id: Uuid, step: nat) {
    id in creds && creds[id].verified && (creds[id].lastUsedStep.Some? ==> creds[id].lastUsedStep.value < step)
  }

  function DropUnverified(creds: map<Uuid, Credential>, user: Uuid): map<Uuid, Credential> {
    map id | id in creds && !(creds[id].user == user && !creds[id].verified) :: creds[id]
  }

  ghost function Step(mac: MacFunction, s: State, a: Action): State {
    match a
    case StartEnrollment(user, secret, id) =>
      if id in s.issued then s
      else s.(creds := DropUnverified(s.creds, user)[id := Credential(user, "Authenticator", secret, false, None)],
              issued := s.issued + {id})
    case Confirm(user, id, name) =>
      if id in s.creds && s.creds[id].user == user && !s.creds[id].verified
      then s.(creds := s.creds[id := s.creds[id].(verified := true, name := name)])
      else s
    case Rename(user, id, name) =>
      if id in s.creds && s.creds[id].user == user && s.creds[id].verified
      then s.(creds := s.creds[id := s.creds[id].(name := name)])
      else s
    case Delete(user, id) =>
      if id in s.creds && s.creds[id].user == user then s.(creds := s.creds - {id}) else s
    case Read(request, user, code, unixTime, order) =>
      if request !in s.open && ListsVerified(s.creds, user, order)
      then s.(open := s.open[request := Verification(user, code, unixTime, Candidates(s.creds, order))])
      else s
    case Consume(request) =>
      if request in s.open then Finish(mac, s, request) else s
  }

  /** Ends the request; accepts iff some row matched and its update landed. */
  function Finish(mac: MacFunction, s: State, request: RequestId): State
    requires request in s.open
  {
    var v := s.open[request];
    var open := s.open - {request};
    var hit := FirstMatch(mac, v.rows, v.code, v.unixTime);
    if hit.Some? && MayConsume(s.creds, hit.value.0.id, hit.value.1) then
      var (row, step) := hit.value;
      State(s.creds[row.id := s.creds[row.id].(lastUsedStep := Some(step))], open, s.issued,
            s.accepted + [Acceptance(row.id, step, v.user, row.secret, v.code, v.unixTime)])
    else s.(open := open)
  }

  ghost function Exec(mac: MacFunction, s: State, actions: seq<Action>): State
    decreases |actions|
  {
    if actions == [] then s else Exec(mac, Step(mac, s, actions[0]), actions[1..])
  }

  ghost predicate Reachable(mac: MacFunction, s: State) {
    exists actions :: s == Exec(mac, EMPTY, actions)
  }

  // ----------------------------------------------------------------- invariant

  /** Per credential, every acceptance used a newer step than the one before. */
  ghost predicate StepsIncrease(accepted: seq<Acceptance>) {
    forall i, j :: 0 <= i < j < |accepted| && accepted[i].id == accepted[j].id ==>
      accepted[i].step < accepted[j].step
  }

  ghost predicate Justified(mac: MacFunction, a: Acceptance) {
    StepFor(mac, a.secret, a.code, a.unixTime) == Some(a.step)
  }

  /** The rows a request has read are of its own user, and a row's user and secret never
      change. */
  ghost predicate RowsOwned(creds: map<Uuid, Credential>, issued: set<Uuid>, v: Verification) {
    forall c <- v.rows :: c.id in issued &&
      (c.id in creds ==> creds[c.id].user == v.user && creds[c.id].secret == c.secret)
  }

  ghost predicate Owned(s: State) {
    && (forall q <- s.open :: RowsOwned(s.creds, s.issued, s.open[q]))
    && (forall a <- s.accepted :: a.id in s.creds ==>
          s.creds[a.id].user == a.user && s.creds[a.id].secret == a.secret)
  }

  ghost predicate Inv(mac: MacFunction, s: State) {
    && (forall id <- s.creds :: id in s.issued)
    && (forall a <- s.accepted :: a.id in s.issued && Justified(mac, a))
    && (forall a <- s.accepted :: a.id in s.creds ==>
          s.creds[a.id].lastUsedStep.Some? && a.step <= s.creds[a.id].lastUsedStep.value)
    && StepsIncrease(s.accepted)
  }

  lemma {:induction false} FirstMatchIsMatch(mac: MacFunction, rows: seq<Candidate>, code: string, unixTime: int)
    ensures var hit := FirstMatch(mac, rows, code, unixTime);
            && (hit.Some? ==> hit.value.0 in rows)
            && (hit.Some? ==> StepFor(mac, hit.value.0.secret, code, unixTime) == Some(hit.value.1))
            && (hit.None? ==> forall r <- rows :: StepFor(mac, r.secret, code, unixTime).None?)
  {
    if rows != [] {
      FirstMatchIsMatch(mac, rows[1..], code, unixTime);
    }
  }

  lemma NewerStepIncreases(accepted: seq<Acceptance>, a: Acceptance)
    requires StepsIncrease(accepted)
    requires forall b <- accepted :: b.id == a.id ==> b.step < a.step
    ensures StepsIncrease(accepted + [a])
  {
    forall i | 0 <= i < |accepted| && accepted[i].id == a.id ensures accepted[i].step < a.step {
      assert accepted[i] in accepted;
    }
  }

  /** The consuming update keeps its credential's steps increasing. */
  lemma AcceptKeepsInv(mac: MacFunction, s: State, a: Acceptance, open: map<RequestId, Verification>)
    requires Inv(mac, s) && Justified(mac, a) && MayConsume(s.creds, a.id, a.step)
    ensures Inv(mac, State(s.creds[a.id := s.creds[a.id].(lastUsedStep := Some(a.step))], open, s.issued,
                           s.accepted + [a]))
  {
    NewerStepIncreases(s.accepted, a);
  }

  lemma FinishKeepsInv(mac: MacFunction, s: State, request: RequestId)
    requires Inv(mac, s) && request in s.open
    ensures Inv(mac, Finish(mac, s, request))
  {
    var v := s.open[request];
    FirstMatchIsMatch(mac, v.rows, v.code, v.unixTime);
    var hit := FirstMatch(mac, v.rows, v.code, v.unixTime);
    if hit.Some? && MayConsume(s.creds, hit.value.0.id, hit.value.1) {
      var (row, step) := hit.value;
      var a := Acceptance(row.id, step, v.user, row.secret, v.code, v.unixTime);
      AcceptKeepsInv(mac, s, a, s.open - {request});
    }
  }

  lemma StepKeepsInv(mac: MacFunction, s: State, a: Action)
    requires Inv(mac, s)
    ensures Inv(mac, Step(mac, s, a))
  {
    if a.Consume? && a.request in s.open {
      FinishKeepsInv(mac, s, a.request);
    }
  }

  lemma {:induction false} ExecKeepsInv(mac: MacFunction, s: State, actions: seq<Action>)
    requires Inv(mac, s)
    ensures Inv(mac, Exec(mac, s, actions))
    decreases |actions|
  {
    if actions != [] {
      StepKeepsInv(mac, s, actions[0]);
      ExecKeepsInv(mac, Step(mac, s, actions[0]), actions[1..]);
    }
  }

  lemma RowsStayOwned(creds: map<Uuid, Credential>, issued: set<Uuid>,
                      creds': map<Uuid, Credential>, issued': set<Uuid>, v: Verification)
    requires RowsOwned(creds, issued, v) && issued <= issued'
    requires forall id :: id in creds' && id in issued ==>
               id in creds && creds'[id].user == creds[id].user && creds'[id].secret == creds[id].secret
    ensures RowsOwned(creds', issued', v)
  {}

  lemma ReadIsOwned(creds: map<Uuid, Credential>, issued: set<Uuid>, v: Verification, order: seq<Uuid>)
    requires ListsVerified(creds, v.user, order) && v.rows == Candidates(creds, order)
    requires forall id <- creds :: id in issued
    ensures RowsOwned(creds, issued, v)
  {
    forall c <- v.rows ensures c.id in issued && creds[c.id].user == v.user && creds[c.id].secret == c.secret {
      var i :| 0 <= i < |v.rows| && v.rows[i] == c;
      assert order[i] in order;
    }
  }

  lemma FinishKeepsOwned(mac: MacFunction, s: State, request: RequestId)
    requires Owned(s) && request in s.open
    ensures Owned(Finish(mac, s, request))
  {
    var v := s.open[request];
    FirstMatchIsMatch(mac, v.rows, v.code, v.unixTime);
    assert RowsOwned(s.creds, s.issued, v);
    var s' := Finish(mac, s, request);
    forall q <- s'.open ensures RowsOwned(s'.creds, s'.issued, s'.open[q]) {
      RowsStayOwned(s.creds, s.issued, s'.creds, s'.issued, s.open[q]);
    }
  }

  /** Edits of the table drop rows, add new ones, and keep the user and secret of the
      others. */
  lemma EditKeepsOwned(s: State, s': State)
    requires Owned(s) && s'.open == s.open && s'.accepted == s.accepted && s.issued <= s'.issued
    requires forall a <- s.accepted :: a.id in s.issued
    requires forall id :: id in s'.creds && id in s.issued ==>
               id in s.creds && s'.creds[id].user == s.creds[id].user && s'.creds[id].secret == s.creds[id].secret
    ensures Owned(s')
  {
    forall q <- s'.open ensures RowsOwned(s'.creds, s'.issued, s'.open[q]) {
      RowsStayOwned(s.creds, s.issued, s'.creds, s'.issued, s.open[q]);
    }
  }

  lemma ReadKeepsOwned(mac: MacFunction, s: State, a: Action)
    requires Inv(mac, s) && Owned(s) && a.Read?
    ensures Owned(Step(mac, s, a))
  {
    var s' := Step(mac, s, a);
    forall q <- s'.open ensures RowsOwned(s'.creds, s'.issued, s'.open[q]) {
      if q !in s.open { ReadIsOwned(s.creds, s.issued, s'.open[q], a.order); }
    }
  }

  lemma StepKeepsOwned(mac: MacFunction, s: State, a: Action)
    requires Inv(mac, s) && Owned(s)
    ensures Owned(Step(mac, s, a))
  {
    if a.Consume? {
      if a.request in s.open { FinishKeepsOwned(mac, s, a.request); }
    } else if a.Read? {
      ReadKeepsOwned(mac, s, a);
    } else {
      EditKeepsOwned(s, Step(mac, s, a));
    }
  }

  lemma {:induction false} ExecKeepsOwned(mac: MacFunction, s: State, actions: seq<Action>)
    requires Inv(mac, s) && Owned(s)
    ensures Owned(Exec(mac, s, actions))
    decreases |actions|
  {
    if actions != [] {
      StepKeepsInv(mac, s, actions[0]);
      StepKeepsOwned(mac, s, actions[0]);
      ExecKeepsOwned(mac, Step(mac, s, actions[0]), actions[1..]);
    }
  }

  // --------------------------------------------------------------- main results

  /** Nobody gets in with somebody else's authenticator: over any interleaving every
      accepted request is by the user of the credential that was consumed, and by its
      secret, as long as the credential exists. */
  lemma AcceptancesAreOwn(mac: MacFunction, s: State)
    requires Reachable(mac, s)
    ensures forall a <- s.accepted :: a.id in s.creds ==>
              s.creds[a.id].user == a.user && s.creds[a.id].secret == a.secret
  {
    var actions :| s == Exec(mac, EMPTY, actions);
    ExecKeepsOwned(mac, EMPTY, actions);
  }

  /** Single use. Over any interleaving of verification requests with each other
      and with enrollment, renaming and deletion, the accepted steps of a credential
      strictly increase, so no (credential, step) pair is accepted twice; and each
      accepted step lies within one of its request's step. */
  lemma StepsAreSingleUse(mac: MacFunction, s: State)
    requires Reachable(mac, s)
    ensures forall i, j :: 0 <= i < j < |s.accepted| && s.accepted[i].id == s.accepted[j].id ==>
              s.accepted[i].step < s.accepted[j].step
    ensures forall a <- s.accepted ::
              && StepAt(a.unixTime) - 1 <= a.step <= StepAt(a.unixTime) + 1
              && FormatCode(Hotp(mac, a.secret, a.step)) == Trim(a.code)
  {
    var actions :| s == Exec(mac, EMPTY, actions);
    ExecKeepsInv(mac, EMPTY, actions);
    forall a <- s.accepted
      ensures StepAt(a.unixTime) - 1 <= a.step <= StepAt(a.unixTime) + 1
      ensures CodeMatches(mac, a.secret, Trim(a.code), a.step)
    {
      assert Justified(mac, a);
      assert Acceptor(mac, a.secret, Trim(a.code))(a.step);
    }
  }

  predicate InPeriod(a: Acceptance, id: Uuid, t0: int, t1: int) {
    a.id == id && t0 <= a.unixTime <= t1
  }

  /** Successful verifications of one credential by requests made in `[t0, t1]`. */
  function CountAccepted(accepted: seq<Acceptance>, id: Uuid, t0: int, t1: int): nat {
    if accepted == [] then 0
    else (if InPeriod(Last(accepted), id, t0, t1) then 1 else 0) + CountAccepted(Front(accepted), id, t0, t1)
  }

  lemma {:induction false} CountWithin(accepted: seq<Acceptance>, id: Uuid, t0: int, t1: int, lo: int, hi: int)
    requires StepsIncrease(accepted) && lo <= hi + 1
    requires forall a <- accepted :: InPeriod(a, id, t0, t1) ==> lo <= a.step <= hi
    ensures CountAccepted(accepted, id, t0, t1) <= hi - lo + 1
  {
    if accepted != [] {
      var front, last := Front(accepted), Last(accepted);
      if InPeriod(last, id, t0, t1) {
        forall a <- front | InPeriod(a, id, t0, t1) ensures lo <= a.step <= last.step - 1 {
          var i :| 0 <= i < |front| && front[i] == a;
          assert accepted[i] == a && accepted[|accepted| - 1] == last;
        }
        assert last in accepted;
        CountWithin(front, id, t0, t1, lo, last.step - 1);
      } else {
        CountWithin(front, id, t0, t1, lo, hi);
      }
    }
  }

  lemma StepAtIsMonotonic(t0: int, t1: int)
    requires t0 <= t1
    ensures StepAt(t0) <= StepAt(t1)
    ensures t0 >= 0 ==> StepAt(t0) == t0 / 30
  {
  }

  /** However many requests are made in a period, at most one per step of the
      period and two more at its edges succeed. */
  lemma AcceptanceRate(mac: MacFunction, s: State, id: Uuid, t0: int, t1: int)
    requires Reachable(mac, s) && t0 <= t1
    ensures CountAccepted(s.accepted, id, t0, t1) <= StepAt(t1) - StepAt(t0) + 3
    ensures t0 >= 0 ==> CountAccepted(s.accepted, id, t0, t1) <= t1 / 30 - t0 / 30 + 3
  {
    StepsAreSingleUse(mac, s);
    StepAtIsMonotonic(t0, t1);
    StepAtIsMonotonic(t1, t1);
    forall a <- s.accepted | InPeriod(a, id, t0, t1)
      ensures StepAt(t0) - 1 <= a.step <= StepAt(t1) + 1
    {
      StepAtIsMonotonic(t0, a.unixTime);
      StepAtIsMonotonic(a.unixTime, t1);
    }
    CountWithin(s.accepted, id, t0, t1, StepAt(t0) - 1, StepAt(t1) + 1);
  }

  lemma {:induction false} EachIsCounted(accepted: seq<Acceptance>, id: Uuid, t0: int, t1: int, chosen: set<nat>)
    requires forall i <- chosen :: i < |accepted| && accepted[i].id == id && t0 <= accepted[i].unixTime <= t1
    ensures |chosen| <= CountAccepted(accepted, id, t0, t1)
  {
    if accepted == [] {
      assert chosen == {};
    } else {
      var n := |accepted| - 1;
      EachIsCounted(Front(accepted), id, t0, t1, chosen - {n});
    }
  }

  /** The same without a counter: no choice of acceptances of one credential in a period is
      larger than its steps and two more. */
  lemma AcceptancesPerPeriod(mac: MacFunction, s: State, id: Uuid, t0: int, t1: int, chosen: set<nat>)
    requires Reachable(mac, s) && 0 <= t0 <= t1
    requires forall i <- chosen :: i < |s.accepted| && s.accepted[i].id == id && t0 <= s.accepted[i].unixTime <= t1
    ensures |chosen| <= t1 / 30 - t0 / 30 + 3
  {
    AcceptanceRate(mac, s, id, t0, t1);
    EachIsCounted(s.accepted, id, t0, t1, chosen);
  }

  /** Single use is per credential and step, not per code: the same digits succeed a
      second time only if a different (credential, step) pair produces them. */
  lemma RepeatedCodeNeedsCoincidence(mac: MacFunction, s: State, i: nat, j: nat)
    requires Reachable(mac, s) && i < j < |s.accepted|
    requires Trim(s.accepted[i].code) == Trim(s.accepted[j].code)
    ensures var a, b := s.accepted[i], s.accepted[j];
            && (a.id, a.step) != (b.id, b.step)
            && FormatCode(Hotp(mac, a.secret, a.step)) == FormatCode(Hotp(mac, b.secret, b.step))
  {
    StepsAreSingleUse(mac, s);
    assert s.accepted[i] in s.accepted && s.accepted[j] in s.accepted;
  }

  /** The effect of an accepted verification on the table. */
  function Consumed(creds: map<Uuid, Credential>, id: Uuid, step: nat): map<Uuid, Credential>
    requires id in creds
  {
    creds[id := creds[id].(lastUsedStep := Some(step))]
  }

  lemma ListedSecret(mac: MacFunction, creds: map<Uuid, Credential>, user: Uuid, order: seq<Uuid>,
                     code: string, now: int)
    requires ListsVerified(creds, user, order)
    ensures var hit := FirstMatch(mac, Candidates(creds, order), code, now);
            hit.Some? ==>
              && hit.value.0.id in order && hit.value.0.secret == creds[hit.value.0.id].secret
              && StepFor(mac, hit.value.0.secret, code, now) == Some(hit.value.1)
  {
    var rows := Candidates(creds, order);
    FirstMatchIsMatch(mac, rows, code, now);
    var hit := FirstMatch(mac, rows, code, now);
    if hit.Some? {
      var i :| 0 <= i < |rows| && rows[i] == hit.value.0;
      assert rows[i] == Candidate(order[i], creds[order[i]].secret);
    }
  }

  /** Exactly when a code accepted at `t1` is accepted again at `t2`, nothing having
      changed in between: when the row that now matches first is another authenticator
      that has not used its matching step, or the same authenticator whose window has
      moved past the step used and holds another counter with the same six digits. */
  lemma SameCodeAgain(mac: MacFunction, creds: map<Uuid, Credential>, user: Uuid, first: seq<Uuid>, again: seq<Uuid>,
                      code: string, t1: int, t2: int)
    requires ListsVerified(creds, user, first) && ListsVerified(creds, user, again) && t1 <= t2
    requires FirstMatch(mac, Candidates(creds, first), code, t1).Some?
    ensures var (row, step) := FirstMatch(mac, Candidates(creds, first), code, t1).value;
            row.id in creds && ListsVerified(Consumed(creds, row.id, step), user, again)
    ensures var (row, step) := FirstMatch(mac, Candidates(creds, first), code, t1).value;
            var after := Consumed(creds, row.id, step);
            var hit := FirstMatch(mac, Candidates(after, again), code, t2);
            && hit == FirstMatch(mac, Candidates(creds, again), code, t2)
            && (hit.Some? ==>
                  (MayConsume(after, hit.value.0.id, hit.value.1) <==>
                   if hit.value.0.id == row.id then step + 1 < StepAt(t2)
                   else MayConsume(creds, hit.value.0.id, hit.value.1)))
  {
    var (row, step) := FirstMatch(mac, Candidates(creds, first), code, t1).value;
    ListedSecret(mac, creds, user, first, code, t1);
    var after := Consumed(creds, row.id, step);
    assert Candidates(after, again) == Candidates(creds, again);
    ListedSecret(mac, creds, user, again, code, t2);
    var hit := FirstMatch(mac, Candidates(creds, again), code, t2);
    if hit.Some? && hit.value.0.id == row.id {
      LaterMatch(mac, row.secret, code, t1, t2);
    }
  }

  /** The first match of a code moves on exactly when the step matched earlier has left
      the window. */
  lemma LaterMatch(mac: MacFunction, secret: Bytes, code: string, t1: int, t2: int)
    requires t1 <= t2 && StepFor(mac, secret, code, t1).Some? && StepFor(mac, secret, code, t2).Some?
    ensures StepFor(mac, secret, code, t1).value < StepFor(mac, secret, code, t2).value
       <==> StepFor(mac, secret, code, t1).value + 1 < StepAt(t2)
  {
    StepAtIsMonotonic(t1, t2);
    var step := StepFor(mac, secret, code, t1).value;
    assert Acceptor(mac, secret, Trim(code))(step);
  }

  /** With nothing elapsed some row always matches again. */
  lemma SameCodeAtOnce(mac: MacFunction, creds: map<Uuid, Credential>, user: Uuid, first: seq<Uuid>, again: seq<Uuid>,
                       code: string, now: int)
    requires ListsVerified(creds, user, first) && ListsVerified(creds, user, again)
    requires FirstMatch(mac, Candidates(creds, first), code, now).Some?
    ensures FirstMatch(mac, Candidates(creds, again), code, now).Some?
  {
    ListedSecret(mac, creds, user, first, code, now);
    SomeListed(mac, creds, user, again, FirstMatch(mac, Candidates(creds, first), code, now).value.0.id, code, now);
  }

  lemma SomeListed(mac: MacFunction, creds: map<Uuid, Credential>, user: Uuid, order: seq<Uuid>, id: Uuid,
                   code: string, now: int)
    requires ListsVerified(creds, user, order) && id in order
    requires StepFor(mac, creds[id].secret, code, now).Some?
    ensures FirstMatch(mac, Candidates(creds, order), code, now).Some?
  {
    var rows := Candidates(creds, order);
    FirstMatchIsMatch(mac, rows, code, now);
    var i :| 0 <= i < |order| && order[i] == id;
    assert rows[i] in rows;
  }

  /** Which does happen, although the comment beside the loop rules it out: two
      authenticators of a user may show the same digits, and the database may list
      them in either order, so one code is accepted once for each. */
  lemma OneCodeCanSucceedTwice(mac: MacFunction, user: Uuid, sa: Bytes, sb: Bytes, code: string, now: int)
    requires StepFor(mac, sa, code, now).Some? && StepFor(mac, sb, code, now).Some?
    ensures exists s :: Reachable(mac, s) && |s.accepted| == 2 &&
              s.accepted[0].code == s.accepted[1].code == code &&
              s.accepted[0].unixTime == s.accepted[1].unixTime == now
  {
    var s0 := TwoEnrolled(mac, user, sa, sb);
    var s2, run, a, b := AcceptBoth(mac, s0, user, code, now);
    ReachesOn(mac, s0, run);
  }

  /** Two authenticators, 1 and 2, of the user, verified. */
  ghost predicate TwoVerified(s: State, user: Uuid) {
    && s.open == map[] && s.creds.Keys == {1, 2}
    && s.creds[1].user == user && s.creds[1].verified && s.creds[2].user == user && s.creds[2].verified
  }

  ghost predicate FreshMatch(mac: MacFunction, c: Credential, code: string, now: int) {
    c.lastUsedStep == None && StepFor(mac, c.secret, code, now).Some?
  }

  lemma AcceptBoth(mac: MacFunction, s: State, user: Uuid, code: string, now: int)
    returns (s': State, run: seq<Action>, a: Acceptance, b: Acceptance)
    requires TwoVerified(s, user)
    requires FreshMatch(mac, s.creds[1], code, now) && FreshMatch(mac, s.creds[2], code, now)
    ensures s' == Exec(mac, s, run) && s'.accepted == s.accepted + [a, b]
    ensures a.code == b.code == code && a.unixTime == b.unixTime == now
  {
    var s1, first, a1 := AcceptOne(mac, s, 1, user, code, now, [1, 2]);
    var s2, second, b1 := AcceptOne(mac, s1, 2, user, code, now, [2, 1]);
    ExecAppend(mac, s, first, second);
    s', run, a, b := s2, first + second, a1, b1;
  }

  lemma AcceptOne(mac: MacFunction, s: State, id: Uuid, user: Uuid, code: string, now: int, order: seq<Uuid>)
    returns (s': State, run: seq<Action>, a: Acceptance)
    requires TwoVerified(s, user) && id in {1, 2} && order == [id, 3 - id] && FreshMatch(mac, s.creds[id], code, now)
    ensures s' == Exec(mac, s, run) && TwoVerified(s', user) && s'.creds[3 - id] == s.creds[3 - id]
    ensures s'.accepted == s.accepted + [a] && a.code == code && a.unixTime == now
  {
    BothOrders(s.creds, user);
    s' := VerifyOnce(mac, s, id, user, code, now, order, id);
    run := [Read(id, user, code, now, order), Consume(id)];
    a := Last(s'.accepted);
  }

  lemma BothOrders(creds: map<Uuid, Credential>, user: Uuid)
    requires creds.Keys == {1, 2} && forall id <- creds :: creds[id].user == user && creds[id].verified
    ensures ListsVerified(creds, user, [1, 2]) && ListsVerified(creds, user, [2, 1])
  {}

  lemma ReachesOn(mac: MacFunction, s: State, more: seq<Action>)
    requires Reachable(mac, s)
    ensures Reachable(mac, Exec(mac, s, more))
  {
    var done :| s == Exec(mac, EMPTY, done);
    ExecAppend(mac, EMPTY, done, more);
  }

  function Enrollments(user: Uuid, sa: Bytes, sb: Bytes): seq<Action> {
    [StartEnrollment(user, sa, 1), Confirm(user, 1, "a"), StartEnrollment(user, sb, 2), Confirm(user, 2, "b")]
  }

  lemma TwoEnrolled(mac: MacFunction, user: Uuid, sa: Bytes, sb: Bytes) returns (s: State)
    ensures Reachable(mac, s)
    ensures s == State(map[1 := Credential(user, "a", sa, true, None), 2 := Credential(user, "b", sb, true, None)],
                       map[], {1, 2}, [])
  {
    var enroll := Enrollments(user, sa, sb);
    RunFour(mac, EMPTY, enroll);
    var s1 := Step(mac, EMPTY, enroll[0]);
    assert s1.creds == map[1 := Credential(user, "Authenticator", sa, false, None)];
    var s2 := Step(mac, s1, enroll[1]);
    assert s2.creds == map[1 := Credential(user, "a", sa, true, None)];
    var s3 := Step(mac, s2, enroll[2]);
    assert s3.creds == map[1 := Credential(user, "a", sa, true, None),
                           2 := Credential(user, "Authenticator", sb, false, None)];
    s := Step(mac, s3, enroll[3]);
    assert s.creds == map[1 := Credential(user, "a", sa, true, None), 2 := Credential(user, "b", sb, true, None)];
    assert s == Exec(mac, EMPTY, enroll);
  }

  lemma RunFour(mac: MacFunction, s: State, actions: seq<Action>)
    requires |actions| == 4
    ensures Exec(mac, s, actions)
         == Step(mac, Step(mac, Step(mac, Step(mac, s, actions[0]), actions[1]), actions[2]), actions[3])
  {
    var s1 := Step(mac, s, actions[0]);
    var s2 := Step(mac, s1, actions[1]);
    assert Exec(mac, s, actions) == Exec(mac, s1, actions[1..]);
    assert Exec(mac, s1, actions[1..]) == Exec(mac, s2, actions[2..]);
    assert Exec(mac, s2, actions[2..]) == Exec(mac, Step(mac, s2, actions[2]), actions[3..]);
  }

  lemma {:induction false} ExecAppend(mac: MacFunction, s: State, a: seq<Action>, b: seq<Action>)
    ensures Exec(mac, s, a + b) == Exec(mac, Exec(mac, s, a), b)
    decreases |a|
  {
    if a == [] {
      assert a + b == b;
    } else {
      assert (a + b)[1..] == a[1..] + b;
      ExecAppend(mac, Step(mac, s, a[0]), a[1..], b);
    }
  }

  /** An undisturbed verification whose first listed authenticator is fresh. */
  lemma VerifyOnce(mac: MacFunction, s: State, request: RequestId, user: Uuid, code: string, now: int,
                   order: seq<Uuid>, id: Uuid) returns (s': State)
    requires request !in s.open && ListsVerified(s.creds, user, order) && order != [] && order[0] == id
    requires id in s.creds && s.creds[id].verified && s.creds[id].lastUsedStep == None
    requires StepFor(mac, s.creds[id].secret, code, now).Some?
    ensures s' == Exec(mac, s, [Read(request, user, code, now, order), Consume(request)])
    ensures s'.open == s.open
    ensures var step := StepFor(mac, s.creds[id].secret, code, now).value;
            && s'.creds == s.creds[id := s.creds[id].(lastUsedStep := Some(step))]
            && s'.accepted == s.accepted + [Acceptance(id, step, user, s.creds[id].secret, code, now)]
  {
    var rows := Candidates(s.creds, order);
    var read := Step(mac, s, Read(request, user, code, now, order));
    assert rows[0] == Candidate(id, s.creds[id].secret);
    assert FirstMatch(mac, rows, code, now) == Some((rows[0], StepFor(mac, rows[0].secret, code, now).value));
    s' := Step(mac, read, Consume(request));
    assert read.open - {request} == s.open;
    var actions := [Read(request, user, code, now, order), Consume(request)];
    assert Exec(mac, s, actions) == Exec(mac, read, actions[1..]);
    assert Exec(mac, read, actions[1..]) == Exec(mac, s', actions[1..][1..]);
  }

  // --------------------------------------------------------------- the storage

  /** The table as the repository functions change it. */
  class CredentialStore {
    const mac: MacFunction
    var creds: map<Uuid, Credential>

    constructor (mac: MacFunction)
      ensures this.mac == mac && creds == map[]
    {
      this.mac := mac;
      creds := map[];
    }

    /** The new row becomes the user's only unverified one; verified rows and the rows of
        others stay as they are. */
    method StartEnrollment(user: Uuid, secret: Bytes, id: Uuid)
      requires id !in creds
      modifies this`creds
      ensures id in creds && creds[id] == Credential(user, "Authenticator", secret, false, None)
      ensures forall k <- creds :: creds[k].user == user && !creds[k].verified ==> k == id
      ensures forall k <- old(creds) :: old(creds)[k].verified || old(creds)[k].user != user ==>
                k in creds && creds[k] == old(creds)[k]
      ensures forall k <- creds :: k == id || (k in old(creds) && creds[k] == old(creds)[k])
      ensures creds == Step(mac, State(old(creds), map[], old(creds).Keys, []),
                            Action.StartEnrollment(user, secret, id)).creds
    {
      creds := map k | k in creds && !(creds[k].user == user && !creds[k].verified) :: creds[k];
      creds := creds[id := Credential(user, "Authenticator", secret, false, None)];
    }

    method Confirm(user: Uuid, id: Uuid, name: string) returns (matched: bool)
      modifies this`creds
      ensures matched <==> id in old(creds) && old(creds)[id].user == user && !old(creds)[id].verified
      ensures creds == if matched then old(creds)[id := old(creds)[id].(verified := true, name := name)] else old(creds)
      ensures creds == Step(mac, State(old(creds), map[], old(creds).Keys, []), Action.Confirm(user, id, name)).creds
    {
      matched := id in creds && creds[id].user == user && !creds[id].verified;
      if matched {
        creds := creds[id := creds[id].(verified := true, name := name)];
      }
    }

    method Delete(user: Uuid, id: Uuid) returns (matched: bool)
      modifies this`creds
      ensures matched <==> id in old(creds) && old(creds)[id].user == user
      ensures creds == if matched then old(creds) - {id} else old(creds)
      ensures creds == Step(mac, State(old(creds), map[], old(creds).Keys, []), Action.Delete(user, id)).creds
    {
      matched := id in creds && creds[id].user == user;
      if matched {
        creds := creds - {id};
      }
    }

    method Rename(user: Uuid, id: Uuid, name: string) returns (matched: bool)
      modifies this`creds
      ensures matched <==> id in old(creds) && old(creds)[id].user == user && old(creds)[id].verified
      ensures creds == if matched then old(creds)[id := old(creds)[id].(name := name)] else old(creds)
      ensures creds == Step(mac, State(old(creds), map[], old(creds).Keys, []), Action.Rename(user, id, name)).creds
    {
      matched := id in creds && creds[id].user == user && creds[id].verified;
      if matched {
        creds := creds[id := creds[id].(name := name)];
      }
    }

    /** The verified rows of the user, in an order of the database's choosing. */
    method SelectVerified(user: Uuid) returns (order: seq<Uuid>)
      ensures ListsVerified(creds, user, order)
      ensures forall id :: id in order <==> id in creds && creds[id].user == user && creds[id].verified
      ensures forall i, j :: 0 <= i < j < |order| ==> order[i] != order[j]
    {
      var left := set id | id in creds && creds[id].user == user && creds[id].verified;
      ghost var all := left;
      order := [];
      while left != {}
        invariant left <= all
        invariant forall id :: id in order <==> id in all - left
        invariant forall i, j :: 0 <= i < j < |order| ==> order[i] != order[j]
        decreases left
      {
        var id :| id in left;
        assert id !in order;
        assert forall i :: 0 <= i < |order| ==> order[i] != id;
        order, left := order + [id], left - {id};
      }
    }

    /** The loop over the rows read earlier, with the conditional update at the
        first match. */
    method ConsumeMatching(rows: seq<Candidate>, code: string, unixTime: int) returns (r: Option<Uuid>)
      modifies this`creds
      ensures var hit := FirstMatch(mac, rows, code, unixTime);
              if hit.Some? && MayConsume(old(creds), hit.value.0.id, hit.value.1) then
                var (row, step) := hit.value;
                && r == Some(row.id)
                && creds == old(creds)[row.id := old(creds)[row.id].(lastUsedStep := Some(step))]
              else r == None && creds == old(creds)
      ensures r.Some? ==> r.value in old(creds) && old(creds)[r.value].verified
      ensures r.Some? ==> exists row: Candidate, step: nat ::
                && row in rows && row.id == r.value && StepFor(mac, row.secret, code, unixTime) == Some(step)
                && (old(creds)[r.value].lastUsedStep == None || old(creds)[r.value].lastUsedStep.value < step)
                && creds == old(creds)[r.value := old(creds)[r.value].(lastUsedStep := Some(step))]
    {
      FirstMatchIsMatch(mac, rows, code, unixTime);
      var i := 0;
      while i < |rows|
        invariant 0 <= i <= |rows| && creds == old(creds)
        invariant FirstMatch(mac, rows, code, unixTime) == FirstMatch(mac, rows[i..], code, unixTime)
      {
        var step := MatchedStep(mac, rows[i].secret, code, unixTime);
        if step.Some? {
          if !MayConsume(creds, rows[i].id, step.value) {
            return None;
          }
          creds := creds[rows[i].id := creds[rows[i].id].(lastUsedStep := step)];
          return Some(rows[i].id);
        }
        assert rows[i..][1..] == rows[i + 1..];
        i := i + 1;
      }
      r := None;
    }

    method VerifyAndConsume(user: Uuid, code: string, unixTime: int) returns (r: Option<Uuid>)
      modifies this`creds
      ensures exists order :: ListsVerified(old(creds), user, order) &&
                var hit := FirstMatch(mac, Candidates(old(creds), order), code, unixTime);
                if hit.Some? && MayConsume(old(creds), hit.value.0.id, hit.value.1) then
                  var (row, step) := hit.value;
                  && r == Some(row.id)
                  && creds == old(creds)[row.id := old(creds)[row.id].(lastUsedStep := Some(step))]
                else r == None && creds == old(creds)
      ensures r.None? ==> creds == old(creds)
      ensures r.Some? ==>
                && r.value in old(creds) && old(creds)[r.value].user == user && old(creds)[r.value].verified
                && creds.Keys == old(creds).Keys && (forall k <- creds :: k != r.value ==> creds[k] == old(creds)[k])
      ensures r.Some? ==> exists step: nat ::
                && StepFor(mac, old(creds)[r.value].secret, code, unixTime) == Some(step)
                && (old(creds)[r.value].lastUsedStep == None || old(creds)[r.value].lastUsedStep.value < step)
                && creds[r.value] == old(creds)[r.value].(lastUsedStep := Some(step))
      ensures (exists id :: && id in old(creds) && old(creds)[id].user == user && old(creds)[id].verified
                            && StepFor(mac, old(creds)[id].secret, code, unixTime).Some?) &&
              (forall id :: && id in old(creds) && old(creds)[id].user == user && old(creds)[id].verified
                            && StepFor(mac, old(creds)[id].secret, code, unixTime).Some? ==>
                 old(creds)[id].lastUsedStep == None ||
                 old(creds)[id].lastUsedStep.value < StepFor(mac, old(creds)[id].secret, code, unixTime).value)
              ==> r.Some?
    {
      var order := SelectVerified(user);
      ghost var rows := Candidates(creds, order);
      ListedSecret(mac, creds, user, order, code, unixTime);
      if id :| id in creds && creds[id].user == user && creds[id].verified
               && StepFor(mac, creds[id].secret, code, unixTime).Some? {
        SomeListed(mac, creds, user, order, id, code, unixTime);
      }
      r := ConsumeMatching(Candidates(creds, order), code, unixTime);
    }
  }
}
