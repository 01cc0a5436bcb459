/** The limiter under its real use: a handler asks `allowed`, works, and on failure
    calls `record_failure`, as two separate critical sections with any number of
    other handlers in between. */
module LoginThrottle {
  import opened Prelude
  import opened RateLimiter

  type AttemptId = nat

  /** An admitted attempt that has not ended. `entered` is the time its handler
      read, `clock` the time its bucket had reached when it was admitted. */
  datatype Ticket = Ticket(key: string, entered: nat, clock: nat)

  datatype Gate = Gate(buckets: Buckets, inFlight: map<AttemptId, Ticket>)

  const OPEN := Gate(map[], map[])

  datatype Event =
    /** `allowed(key)`; a refused attempt is over at once. */
    | Enter(id: AttemptId, key: string, now: nat)
    /** The attempt failed: `record_failure` for its key. */
    | Failed(id: AttemptId, now: nat)
    /** It ended without a charge. */
    | Leave(id: AttemptId)

  function Step(cfg: Config, g: Gate, e: Event): Gate {
    match e
    case Enter(id, key, now) =>
      if id in g.inFlight then g
      else
        var buckets := Touch(cfg, g.buckets, key, now);
        if Allows(cfg, g.buckets, key, now)
        then Gate(buckets, g.inFlight[id := Ticket(key, now, buckets[key].lastMs)])
        else g.(buckets := buckets)
    case Failed(id, now) =>
      if id in g.inFlight
      then Gate(Charge(cfg, g.buckets, g.inFlight[id].key, now), g.inFlight - {id})
      else g
    case Leave(id) =>
      g.(inFlight := g.inFlight - {id})
  }

  /** Who is let in: an attempt for whose key a whole token is there at its reading of the
      clock, counting what has been earned since the last refill. */
  lemma Admission(cfg: Config, g: Gate, id: AttemptId, key: string, now: nat)
    requires id !in g.inFlight
    ensures var tokens :=
              if key !in g.buckets then cfg.capacity
              else if now <= g.buckets[key].lastMs then g.buckets[key].tokens
              else RMin(g.buckets[key].tokens + (now - g.buckets[key].lastMs) as real * cfg.refillPerMs, cfg.capacity);
            && (id in Step(cfg, g, Enter(id, key, now)).inFlight <==> tokens >= 1.0)
            && key in Step(cfg, g, Enter(id, key, now)).buckets
            && Step(cfg, g, Enter(id, key, now)).buckets[key].tokens == tokens
  {}

  /** A failure takes one token from the key of its attempt, or what is left of one. */
  lemma FailureCharges(cfg: Config, g: Gate, id: AttemptId, now: nat)
    requires id in g.inFlight && g.inFlight[id].key in g.buckets
    requires now <= g.buckets[g.inFlight[id].key].lastMs
    ensures var key, after := g.inFlight[id].key, Step(cfg, g, Failed(id, now));
            && id !in after.inFlight && key in after.buckets
            && after.buckets[key].tokens == RMax(g.buckets[key].tokens - 1.0, 0.0)
  {}

  function Holding(g: Gate, key: string): set<AttemptId> {
    set id <- g.inFlight | g.inFlight[id].key == key
  }

  /** At no point more than `k` attempts of the key are in flight. */
  predicate AtMostInFlight(cfg: Config, g: Gate, events: seq<Event>, key: string, k: nat)
    decreases |events|
  {
    |Holding(g, key)| <= k && (events == [] || AtMostInFlight(cfg, Step(cfg, g, events[0]), events[1..], key, k))
  }

  /** Admitted while the key's bucket clock stood within the window. */
  predicate Counted(t: Ticket, key: string, from: nat, to: nat) {
    t.key == key && from <= t.clock <= to
  }

  /** Failed attempts that were admitted within the window of the bucket clock. */
  function Failures(cfg: Config, g: Gate, events: seq<Event>, key: string, from: nat, to: nat): nat
    decreases |events|
  {
    if events == [] then 0
    else
      var e := events[0];
      var hit := e.Failed? && e.id in g.inFlight && Counted(g.inFlight[e.id], key, from, to);
      (if hit then 1 else 0) + Failures(cfg, Step(cfg, g, e), events[1..], key, from, to)
  }

  // --------------------------------------------------------------- accounting

  /** Attempts in flight that will count if they fail. */
  function Pending(g: Gate, key: string, from: nat, to: nat): set<AttemptId> {
    set id <- g.inFlight | Counted(g.inFlight[id], key, from, to)
  }

  /** Bookkeeping of one key since its first counted admission: failures counted so
      far, and full tokens taken since then. */
  datatype Ledger = Closed | Open(base: nat, counted: nat, taken: nat)

  function CountedSoFar(l: Ledger): nat {
    if l.Open? then l.counted else 0
  }

  /** No token is taken that was not there: what was taken and what is left is
      bounded by the capacity and what waiting earned. A bucket with a full token
      owes nothing; below one token, every attempt still in flight may fail
      without taking anything, but those were admitted before the token that
      emptied the bucket. */
  ghost predicate Balanced(cfg: Config, b: Bucket, l: Ledger, pending: nat, k: nat) {
    l.Open? ==>
      && l.base <= b.lastMs
      && b.tokens + l.taken as real <= cfg.capacity + Earned(cfg, l.base, b.lastMs)
      && (if b.tokens >= 1.0 then l.counted <= k * l.taken else l.counted + pending <= k * l.taken)
  }

  /** The most that can be counted in the window. */
  function Allowance(cfg: Config, k: nat, from: nat, to: nat): real
    requires from <= to
  {
    k as real * (cfg.capacity + Earned(cfg, from, to))
  }

  lemma RefillBalanced(cfg: Config, b: Option<Bucket>, l: Ledger, pending: nat, k: nat, now: nat)
    requires cfg.Valid()
    requires b.None? ==> l.Closed?
    requires b.Some? ==> 0.0 <= b.value.tokens <= cfg.capacity && Balanced(cfg, b.value, l, pending, k)
    ensures var r := Refill(cfg, b, now);
            && 0.0 <= r.tokens <= cfg.capacity && Balanced(cfg, r, l, pending, k)
            && (b.Some? ==> b.value.lastMs <= r.lastMs && b.value.tokens <= r.tokens) && now <= r.lastMs
  {
    if b.Some? && now > b.value.lastMs {
      EarnedAdds(cfg, b.value.lastMs, now, now);
      if l.Open? {
        EarnedAdds(cfg, l.base, b.value.lastMs, now);
      }
    }
  }

  /** The ledger after a failure is recorded against a refilled bucket. */
  function Post(l: Ledger, b: Bucket, hit: bool): Ledger {
    if l.Closed? then l
    else Open(l.base, l.counted + (if hit then 1 else 0), l.taken + (if b.tokens >= 1.0 then 1 else 0))
  }

  lemma ChargeBalanced(cfg: Config, b: Bucket, l: Ledger, pending: nat, k: nat, hit: bool)
    requires cfg.Valid() && 0.0 <= b.tokens <= cfg.capacity && 1 <= k && pending <= k
    requires Balanced(cfg, b, l, pending, k)
    requires hit ==> pending > 0
    ensures var b' := b.(tokens := RMax(b.tokens - 1.0, 0.0));
            && 0.0 <= b'.tokens <= cfg.capacity
            && Balanced(cfg, b', Post(l, b, hit), if hit then pending - 1 else pending, k)
  {
    if l.Open? {
      assert k * (l.taken + 1) == k * l.taken + k;
    }
  }

  /** The ledger after an admission on a refilled bucket. */
  function Opened(l: Ledger, b: Bucket, counts: bool): Ledger {
    if counts && l.Closed? then Open(b.lastMs, 0, 0) else l
  }

  /** An admission needs a full token, which is what keeps the count within the
      allowance. */
  lemma AdmitWithinAllowance(cfg: Config, b: Bucket, l: Ledger, pending: nat, pending': nat, k: nat,
                             from: nat, to: nat)
    requires cfg.Valid() && b.tokens <= cfg.capacity && b.tokens >= 1.0 && from <= b.lastMs <= to
    requires Balanced(cfg, b, l, pending, k)
    requires l.Open? ==> from <= l.base
    requires pending' <= k
    ensures Balanced(cfg, b, Opened(l, b, true), pending', k)
    ensures CountedSoFar(l) as real + pending' as real <= Allowance(cfg, k, from, to)
  {
    EarnedAdds(cfg, from, b.lastMs, to);
    EarnedAdds(cfg, b.lastMs, b.lastMs, b.lastMs);
    EarnedAdds(cfg, b.lastMs, to, to);
    var total := cfg.capacity + Earned(cfg, from, to);
    if l.Open? {
      EarnedAdds(cfg, from, l.base, b.lastMs);
      assert l.taken as real + 1.0 <= total;
      FullTokensPay(k, l.counted, l.taken, pending', total);
    } else {
      FullTokensPay(k, 0, 0, pending', total);
    }
  }

  /** Each full token pays for at most `k` failures; the attempts in flight are
      paid for by the one just shown. */
  lemma FullTokensPay(k: nat, counted: nat, taken: nat, pending: nat, total: real)
    requires counted <= k * taken && pending <= k && taken as real + 1.0 <= total
    ensures counted as real + pending as real <= k as real * total
  {
    assert counted + pending <= k * taken + k == k * (taken + 1);
    ProductAsReal(k, taken + 1);
    Scale(k as real, (taken + 1) as real, total);
  }

  lemma {:induction false} ProductAsReal(a: nat, b: nat)
    ensures (a * b) as real == a as real * b as real
  {
    if a > 0 {
      ProductAsReal(a - 1, b);
      assert a * b == (a - 1) * b + b;
      var x, y := (a - 1) as real, b as real;
      assert (x + 1.0) * y == x * y + y;
    }
  }

  lemma Scale(k: real, x: real, y: real)
    requires k >= 0.0 && x <= y
    ensures k * x <= k * y
  {
  }

  // ------------------------------------------------------------------ the bound

  ghost predicate Sound(cfg: Config, g: Gate, l: Ledger, key: string, k: nat, from: nat, to: nat)
    requires from <= to
  {
    var pending := |Pending(g, key, from, to)|;
    && (forall id <- g.inFlight :: g.inFlight[id].key in g.buckets)
    && (key in g.buckets ==> 0.0 <= g.buckets[key].tokens <= cfg.capacity
                             && Balanced(cfg, g.buckets[key], l, pending, k))
    && (l.Open? ==> key in g.buckets && from <= l.base)
    && (l.Closed? ==> pending == 0)
    && CountedSoFar(l) as real + pending as real <= Allowance(cfg, k, from, to)
  }

  lemma PendingWithin(g: Gate, key: string, from: nat, to: nat)
    ensures |Pending(g, key, from, to)| <= |Holding(g, key)|
  {
    SubsetSize(Pending(g, key, from, to), Holding(g, key));
  }

  lemma {:induction false} SubsetSize<T>(a: set<T>, b: set<T>)
    requires a <= b
    ensures |a| <= |b|
  {
    if a != {} {
      var x :| x in a;
      SubsetSize(a - {x}, b - {x});
    }
  }

  /** Ending an attempt takes it off the pending ones if it was one. */
  lemma PendingAfterEnd(g: Gate, id: AttemptId, buckets: Buckets, key: string, from: nat, to: nat)
    requires id in g.inFlight
    ensures var n := |Pending(g, key, from, to)|;
            var n' := |Pending(Gate(buckets, g.inFlight - {id}), key, from, to)|;
            if Counted(g.inFlight[id], key, from, to) then n' == n - 1 else n' == n
  {
    assert Pending(Gate(buckets, g.inFlight - {id}), key, from, to) == Pending(g, key, from, to) - {id};
  }

  ghost predicate Enters(g: Gate, id: AttemptId, key: string, from: nat, to: nat) {
    id in g.inFlight && Counted(g.inFlight[id], key, from, to)
  }

  lemma PendingAfterEnter(cfg: Config, g: Gate, e: Event, key: string, from: nat, to: nat)
    requires e.Enter? && e.id !in g.inFlight
    ensures var g' := Step(cfg, g, e);
            && |Pending(g', key, from, to)|
               == |Pending(g, key, from, to)| + (if Enters(g', e.id, key, from, to) then 1 else 0)
            && g'.buckets == Touch(cfg, g.buckets, e.key, e.now)
            && (Enters(g', e.id, key, from, to) ==>
                  e.key == key && g'.buckets[key].tokens >= 1.0 && from <= g'.buckets[key].lastMs <= to)
  {
    var g' := Step(cfg, g, e);
    if Enters(g', e.id, key, from, to) {
      assert Pending(g', key, from, to) == Pending(g, key, from, to) + {e.id};
    } else {
      assert Pending(g', key, from, to) == Pending(g, key, from, to);
    }
  }

  lemma EnterKeepsKeys(cfg: Config, g: Gate, e: Event)
    requires e.Enter? && forall id <- g.inFlight :: g.inFlight[id].key in g.buckets
    ensures var g' := Step(cfg, g, e);
            forall id <- g'.inFlight :: g'.inFlight[id].key in g'.buckets
  {}

  lemma EnterSound(cfg: Config, g: Gate, l: Ledger, e: Event, key: string, k: nat, from: nat, to: nat)
    returns (l': Ledger)
    requires cfg.Valid() && from <= to && e.Enter? && e.id !in g.inFlight
    requires Sound(cfg, g, l, key, k, from, to)
    requires |Holding(Step(cfg, g, e), key)| <= k
    ensures Sound(cfg, Step(cfg, g, e), l', key, k, from, to)
    ensures CountedSoFar(l') == CountedSoFar(l)
  {
    var g' := Step(cfg, g, e);
    var p, p' := |Pending(g, key, from, to)|, |Pending(g', key, from, to)|;
    PendingWithin(g', key, from, to);
    PendingAfterEnter(cfg, g, e, key, from, to);
    EnterKeepsKeys(cfg, g, e);
    l' := l;
    if e.key == key {
      RefillBalanced(cfg, Find(g.buckets, key), l, p, k, e.now);
      if Enters(g', e.id, key, from, to) {
        l' := Opened(l, g'.buckets[key], true);
        AdmitWithinAllowance(cfg, g'.buckets[key], l, p, p', k, from, to);
      }
    }
  }

  lemma FailedSound(cfg: Config, g: Gate, l: Ledger, e: Event, key: string, k: nat, from: nat, to: nat)
    returns (l': Ledger)
    requires cfg.Valid() && from <= to && e.Failed? && e.id in g.inFlight && 1 <= k
    requires Sound(cfg, g, l, key, k, from, to)
    requires |Holding(g, key)| <= k
    ensures Sound(cfg, Step(cfg, g, e), l', key, k, from, to)
    ensures CountedSoFar(l') == CountedSoFar(l) + (if Counted(g.inFlight[e.id], key, from, to) then 1 else 0)
  {
    var g' := Step(cfg, g, e);
    var n := |Pending(g, key, from, to)|;
    var hit := Counted(g.inFlight[e.id], key, from, to);
    PendingWithin(g, key, from, to);
    PendingAfterEnd(g, e.id, g'.buckets, key, from, to);
    if hit {
      assert e.id in Pending(g, key, from, to);
    }
    if g.inFlight[e.id].key == key {
      RefillBalanced(cfg, Find(g.buckets, key), l, n, k, e.now);
      var b := Refill(cfg, Find(g.buckets, key), e.now);
      ChargeBalanced(cfg, b, l, n, k, hit);
      l' := Post(l, b, hit);
    } else {
      l' := l;
    }
  }

  lemma LeaveSound(cfg: Config, g: Gate, l: Ledger, e: Event, key: string, k: nat, from: nat, to: nat)
    requires from <= to && e.Leave? && Sound(cfg, g, l, key, k, from, to)
    ensures Sound(cfg, Step(cfg, g, e), l, key, k, from, to)
  {
    if e.id in g.inFlight {
      PendingAfterEnd(g, e.id, g.buckets, key, from, to);
    } else {
      assert g.inFlight - {e.id} == g.inFlight;
    }
  }

  lemma {:induction false} BoundFrom(cfg: Config, g: Gate, l: Ledger, events: seq<Event>, key: string, k: nat,
                                     from: nat, to: nat)
    requires cfg.Valid() && from <= to && 1 <= k
    requires Sound(cfg, g, l, key, k, from, to)
    requires AtMostInFlight(cfg, g, events, key, k)
    ensures CountedSoFar(l) as real + Failures(cfg, g, events, key, from, to) as real
         <= Allowance(cfg, k, from, to)
    decreases |events|
  {
    if events != [] {
      var e := events[0];
      var g' := Step(cfg, g, e);
      assert |Holding(g', key)| <= k;
      var l' := l;
      if e.Enter? && e.id !in g.inFlight {
        l' := EnterSound(cfg, g, l, e, key, k, from, to);
      } else if e.Failed? && e.id in g.inFlight {
        l' := FailedSound(cfg, g, l, e, key, k, from, to);
      } else if e.Leave? {
        LeaveSound(cfg, g, l, e, key, k, from, to);
      }
      BoundFrom(cfg, g', l', events[1..], key, k, from, to);
    }
  }

  /** The rate bound. In any interleaving of handlers that never has more than `k`
      attempts of the key in flight, at most `k * (capacity + refill * window)`
      attempts admitted in a window of the bucket's clock fail, although charges
      are lost at zero and threads may act out of timestamp order. */
  lemma RateBound(cfg: Config, events: seq<Event>, key: string, k: nat, from: nat, to: nat)
    requires cfg.Valid() && from <= to && 1 <= k
    requires AtMostInFlight(cfg, OPEN, events, key, k)
    ensures Failures(cfg, OPEN, events, key, from, to) as real
         <= k as real * (cfg.capacity + (to - from) as real * cfg.refillPerMs)
  {
    assert Pending(OPEN, key, from, to) == {};
    assert Earned(cfg, from, to) >= 0.0 by { EarnedAdds(cfg, from, to, to); }
    assert Allowance(cfg, k, from, to) >= 0.0 by {
      Scale(k as real, 0.0, cfg.capacity + Earned(cfg, from, to));
    }
    BoundFrom(cfg, OPEN, Closed, events, key, k, from, to);
  }

  // ------------------------------------------------------ counting by timestamp

  /** Failed attempts whose own timestamps, on entry and at the failure, lie in the
      window. */
  function StampedFailures(cfg: Config, g: Gate, events: seq<Event>, key: string, from: nat, to: nat): nat
    decreases |events|
  {
    if events == [] then 0
    else
      var e := events[0];
      var hit := e.Failed? && e.id in g.inFlight && g.inFlight[e.id].key == key
                 && from <= g.inFlight[e.id].entered && e.now <= to;
      (if hit then 1 else 0) + StampedFailures(cfg, Step(cfg, g, e), events[1..], key, from, to)
  }

  /** What a monotonic clock guarantees: a handler reads the time of its failure
      after its admission, hence after every reading its bucket had seen by then. */
  predicate Timed(cfg: Config, g: Gate, events: seq<Event>)
    decreases |events|
  {
    events == [] ||
      var e := events[0];
      && (e.Failed? && e.id in g.inFlight ==> g.inFlight[e.id].clock <= e.now)
      && Timed(cfg, Step(cfg, g, e), events[1..])
  }

  lemma {:induction false} StampsWithinClock(cfg: Config, g: Gate, events: seq<Event>, key: string, from: nat, to: nat)
    requires Timed(cfg, g, events)
    requires forall id <- g.inFlight :: g.inFlight[id].entered <= g.inFlight[id].clock
    ensures StampedFailures(cfg, g, events, key, from, to) <= Failures(cfg, g, events, key, from, to)
    decreases |events|
  {
    if events != [] {
      StampsWithinClock(cfg, Step(cfg, g, events[0]), events[1..], key, from, to);
    }
  }

  /** The gate after the first `i` events. */
  function GateAt(cfg: Config, g: Gate, events: seq<Event>, i: nat): Gate
    requires i <= |events|
    decreases i
  {
    if i == 0 then g else GateAt(cfg, Step(cfg, g, events[0]), events[1..], i - 1)
  }

  /** Event `i` is the failure of an attempt of the key, admitted and failed within the
      window by its handler's own readings. */
  predicate FailsWithin(cfg: Config, g: Gate, events: seq<Event>, i: nat, key: string, from: nat, to: nat) {
    && i < |events| && events[i].Failed?
    && var before := GateAt(cfg, g, events, i);
       && events[i].id in before.inFlight && before.inFlight[events[i].id].key == key
       && from <= before.inFlight[events[i].id].entered && events[i].now <= to
  }

  lemma {:induction false} EachIsStamped(cfg: Config, g: Gate, events: seq<Event>, key: string, from: nat, to: nat,
                                         chosen: set<nat>)
    requires forall i <- chosen :: FailsWithin(cfg, g, events, i, key, from, to)
    ensures |chosen| <= StampedFailures(cfg, g, events, key, from, to)
    decreases |events|
  {
    if events == [] {
      assert chosen == {};
    } else {
      var g', rest := Step(cfg, g, events[0]), events[1..];
      var later := Earlier(chosen);
      forall i <- later ensures FailsWithin(cfg, g', rest, i, key, from, to) {
        EarlierMember(chosen, i);
        assert FailsWithin(cfg, g, events, i + 1, key, from, to);
      }
      if 0 in chosen { assert FailsWithin(cfg, g, events, 0, key, from, to); }
      EachIsStamped(cfg, g', rest, key, from, to, later);
      ShiftKeepsSize(chosen);
    }
  }

  function Earlier(chosen: set<nat>): set<nat> {
    set i <- chosen | i > 0 :: i - 1
  }

  lemma EarlierMember(chosen: set<nat>, i: nat)
    ensures i in Earlier(chosen) <==> i + 1 in chosen
  {
    if i + 1 in chosen { assert (i + 1) - 1 == i; }
  }

  lemma {:induction false} ShiftKeepsSize(chosen: set<nat>)
    ensures |Earlier(chosen)| == |chosen| - if 0 in chosen then 1 else 0
  {
    if x :| x in chosen {
      var rest := chosen - {x};
      ShiftKeepsSize(rest);
      forall i: nat ensures i in Earlier(chosen) <==> i in Earlier(rest) || i + 1 == x {
        EarlierMember(chosen, i);
        EarlierMember(rest, i);
      }
      if x == 0 {
        assert Earlier(chosen) == Earlier(rest);
      } else {
        EarlierMember(rest, x - 1);
        assert Earlier(chosen) == Earlier(rest) + {x - 1};
      }
    }
  }

  /** The bound without a counter: in a window of the handlers' own readings there are no
      more failures of a key than this, however they are picked out. */
  lemma FailuresPerWindow(cfg: Config, events: seq<Event>, key: string, k: nat, from: nat, to: nat, chosen: set<nat>)
    requires cfg.Valid() && from <= to && 1 <= k
    requires AtMostInFlight(cfg, OPEN, events, key, k) && Timed(cfg, OPEN, events)
    requires forall i <- chosen :: FailsWithin(cfg, OPEN, events, i, key, from, to)
    ensures |chosen| as real <= k as real * (cfg.capacity + (to - from) as real * cfg.refillPerMs)
  {
    RateBoundByTimestamps(cfg, events, key, k, from, to);
    EachIsStamped(cfg, OPEN, events, key, from, to, chosen);
  }

  /** The same bound read off the handlers' own timestamps. */
  lemma RateBoundByTimestamps(cfg: Config, events: seq<Event>, key: string, k: nat, from: nat, to: nat)
    requires cfg.Valid() && from <= to && 1 <= k
    requires AtMostInFlight(cfg, OPEN, events, key, k) && Timed(cfg, OPEN, events)
    ensures StampedFailures(cfg, OPEN, events, key, from, to) as real
         <= k as real * (cfg.capacity + (to - from) as real * cfg.refillPerMs)
  {
    RateBound(cfg, events, key, k, from, to);
    StampsWithinClock(cfg, OPEN, events, key, from, to);
  }
}
