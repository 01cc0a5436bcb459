/** When a mere check of the limiter changes a later answer. The clock is read before
    the lock is taken, so calls need not come in the order of their readings. */
module LimiterChecks {
  import opened Prelude
  import opened RateLimiter

  /** The buckets after more calls. */
  function After(cfg: Config, m: Buckets, calls: seq<Call>): Buckets {
    if calls == [] then m else Apply(cfg, After(cfg, m, Front(calls)), Last(calls))
  }

  /** No calls whatever, at no times whatever, tell the two maps apart. */
  ghost predicate SameAnswers(cfg: Config, m: Buckets, o: Buckets) {
    forall calls: seq<Call>, key: string, now: nat ::
      Allows(cfg, After(cfg, m, calls), key, now) == Allows(cfg, After(cfg, o, calls), key, now)
  }

  /** True of every map the limiter can hold. */
  ghost predicate Bounded(cfg: Config, m: Buckets) {
    forall key <- m :: 0.0 <= m[key].tokens <= cfg.capacity
  }

  lemma ApplyKeepsBounded(cfg: Config, m: Buckets, c: Call)
    requires cfg.Valid() && Bounded(cfg, m)
    ensures Bounded(cfg, Apply(cfg, m, c))
  {
    var b := Find(m, c.key);
    if b.Some? && c.now > b.value.lastMs { EarnedAdds(cfg, b.value.lastMs, c.now, c.now); }
  }

  lemma {:induction false} AfterKeepsBounded(cfg: Config, m: Buckets, calls: seq<Call>)
    requires cfg.Valid() && Bounded(cfg, m)
    ensures Bounded(cfg, After(cfg, m, calls))
  {
    if calls != [] {
      AfterKeepsBounded(cfg, m, Front(calls));
      ApplyKeepsBounded(cfg, After(cfg, m, Front(calls)), Last(calls));
    }
  }

  // ----------------------------------------------------------- checks that leave no trace

  ghost predicate SameRefills(cfg: Config, m: Buckets, o: Buckets) {
    forall key: string, now: nat :: Refill(cfg, Find(m, key), now) == Refill(cfg, Find(o, key), now)
  }

  lemma {:induction false} SameRefillsAfter(cfg: Config, m: Buckets, o: Buckets, calls: seq<Call>)
    requires SameRefills(cfg, m, o)
    ensures SameRefills(cfg, After(cfg, m, calls), After(cfg, o, calls))
  {
    if calls != [] {
      SameRefillsAfter(cfg, m, o, Front(calls));
      var x, y, c := After(cfg, m, Front(calls)), After(cfg, o, Front(calls)), Last(calls);
      assert Refill(cfg, Find(x, c.key), c.now) == Refill(cfg, Find(y, c.key), c.now);
      forall key: string, now: nat
        ensures Refill(cfg, Find(Apply(cfg, x, c), key), now) == Refill(cfg, Find(Apply(cfg, y, c), key), now)
      {
        assert Refill(cfg, Find(x, key), now) == Refill(cfg, Find(y, key), now);
      }
    }
  }

  lemma SameRefillsAnswer(cfg: Config, m: Buckets, o: Buckets)
    requires SameRefills(cfg, m, o)
    ensures SameAnswers(cfg, m, o)
  {
    forall calls: seq<Call>, key: string, now: nat
      ensures Allows(cfg, After(cfg, m, calls), key, now) == Allows(cfg, After(cfg, o, calls), key, now)
    {
      SameRefillsAfter(cfg, m, o, calls);
    }
  }

  /** A new bucket counts as refilled at 0: creating it then is like not creating it. */
  function LastMs(m: Buckets, key: string): nat {
    if key in m then m[key].lastMs else 0
  }

  lemma LateCheckRefillsNothing(cfg: Config, m: Buckets, key: string, t: nat)
    requires cfg.Valid() && t <= LastMs(m, key)
    ensures SameRefills(cfg, m, Touch(cfg, m, key, t))
  {
    if key in m {
      assert Touch(cfg, m, key, t) == m;
    } else {
      forall now: nat ensures Refill(cfg, None, now) == Refill(cfg, Some(Bucket(cfg.capacity, 0)), now) {
        EarnedAdds(cfg, 0, 0, now);
        EarnedAdds(cfg, 0, now, now);
      }
    }
  }

  /** With room for less than one token nobody is ever let in. */
  lemma TinyNeverAllows(cfg: Config, m: Buckets, key: string, now: nat)
    requires cfg.Valid() && cfg.capacity < 1.0 && Bounded(cfg, m)
    ensures !Allows(cfg, m, key, now)
  {}

  function Tokens(cfg: Config, m: Buckets, key: string): real {
    if key in m then m[key].tokens else cfg.capacity
  }

  lemma RefillAddsNothing(cfg: Config, m: Buckets, key: string, now: nat)
    requires cfg.refillPerMs == 0.0 && Bounded(cfg, m)
    ensures Refill(cfg, Find(m, key), now).tokens == Tokens(cfg, m, key)
  {}

  ghost predicate SameTokens(cfg: Config, m: Buckets, o: Buckets) {
    forall key: string :: Tokens(cfg, m, key) == Tokens(cfg, o, key)
  }

  lemma {:induction false} SameTokensAfter(cfg: Config, m: Buckets, o: Buckets, calls: seq<Call>)
    requires cfg.Valid() && cfg.refillPerMs == 0.0 && Bounded(cfg, m) && Bounded(cfg, o) && SameTokens(cfg, m, o)
    ensures SameTokens(cfg, After(cfg, m, calls), After(cfg, o, calls))
  {
    if calls != [] {
      var x, y, c := After(cfg, m, Front(calls)), After(cfg, o, Front(calls)), Last(calls);
      SameTokensAfter(cfg, m, o, Front(calls));
      AfterKeepsBounded(cfg, m, Front(calls));
      AfterKeepsBounded(cfg, o, Front(calls));
      RefillAddsNothing(cfg, x, c.key, c.now);
      RefillAddsNothing(cfg, y, c.key, c.now);
      forall key: string ensures Tokens(cfg, Apply(cfg, x, c), key) == Tokens(cfg, Apply(cfg, y, c), key) {
        assert Tokens(cfg, x, key) == Tokens(cfg, y, key);
      }
    }
  }

  // --------------------------------------------------------------- checks that leave one

  function Fails(key: string, at: nat, n: nat): (calls: seq<Call>)
    ensures |calls| == n
  {
    if n == 0 then [] else Fails(key, at, n - 1) + [Fail(key, at)]
  }

  /** Failures stamped no later than the last refill only take tokens. */
  lemma {:induction false} Drain(cfg: Config, m: Buckets, key: string, at: nat, n: nat)
    requires key in m && at <= m[key].lastMs && m[key].tokens >= 0.0
    ensures var o := After(cfg, m, Fails(key, at, n));
            key in o && o[key] == Bucket(RMax(m[key].tokens - n as real, 0.0), m[key].lastMs)
  {
    if n > 0 {
      Drain(cfg, m, key, at, n - 1);
      assert Front(Fails(key, at, n)) == Fails(key, at, n - 1);
      assert n as real == (n - 1) as real + 1.0;
    }
  }

  /** A fresh key gets in as long as its failures leave a whole token: with an integral
      capacity, exactly that many times. */
  lemma {:induction false} FreshKeyDrains(cfg: Config, key: string, t: nat, n: nat)
    requires cfg.Valid()
    ensures Allows(cfg, After(cfg, map[], Fails(key, t, n)), key, t) <==> cfg.capacity >= 1.0 + n as real
    ensures n > 0 ==>
              Find(After(cfg, map[], Fails(key, t, n)), key) == Some(Bucket(RMax(cfg.capacity - n as real, 0.0), t))
  {
    if n > 0 {
      FreshKeyDrains(cfg, key, t, n - 1);
      assert Front(Fails(key, t, n)) == Fails(key, t, n - 1);
      assert n as real == (n - 1) as real + 1.0;
    }
  }

  /** However long a key has been left alone, no more than the capacity is there to be
      spent. */
  lemma BurstIsCapacity(cfg: Config, m: Buckets, key: string, t: nat, n: nat)
    requires cfg.Valid() && Bounded(cfg, m) && n as real > cfg.capacity - 1.0
    ensures !Allows(cfg, After(cfg, Touch(cfg, m, key, t), Fails(key, t, n)), key, t)
  {
    ApplyKeepsBounded(cfg, m, Check(key, t));
    Drain(cfg, Touch(cfg, m, key, t), key, t, n);
  }

  /** A key that has spent everything at `t` is let in again exactly when the time since
      has earned one token. */
  lemma SpentKeyWaits(cfg: Config, key: string, t: nat, n: nat, now: nat)
    requires cfg.Valid() && cfg.capacity >= 1.0 && n as real >= cfg.capacity && t <= now
    ensures Allows(cfg, After(cfg, map[], Fails(key, t, n)), key, now) <==> Earned(cfg, t, now) >= 1.0
  {
    FreshKeyDrains(cfg, key, t, n);
    EmptyBucketWaits(cfg, t, now);
  }

  lemma EmptyBucketWaits(cfg: Config, t: nat, now: nat)
    requires cfg.Valid() && cfg.capacity >= 1.0 && t <= now
    ensures Refill(cfg, Some(Bucket(0.0, t)), now).tokens >= 1.0 <==> Earned(cfg, t, now) >= 1.0
  {
    EarnedAdds(cfg, t, t, t);
  }

  lemma Scaled(a: real, x: real, r: real)
    requires r > 0.0 && x * r == 1.0
    ensures a >= x ==> a * r >= 1.0
    ensures a < x ==> a * r < 1.0
  {
    var gap := a - x;
    assert a * r == gap * r + 1.0;
    assert gap >= 0.0 ==> gap * r >= 0.0;
    assert gap < 0.0 ==> gap * r < 0.0;
  }

  function Ceiling(x: real): (n: nat)
    requires x > 0.0
    ensures (n - 1) as real < x <= n as real
  {
    if x == x.Floor as real then x.Floor else x.Floor + 1
  }

  lemma Inverse(r: real) returns (x: real)
    requires r > 0.0
    ensures x > 0.0 && x * r == 1.0
  {
    x := 1.0 / r;
  }

  /** The least number of milliseconds that earns a whole token. */
  ghost predicate IsLeastWait(cfg: Config, w: nat) {
    w >= 1 && Earned(cfg, 0, w) >= 1.0 && Earned(cfg, 0, w - 1) < 1.0
  }

  lemma LeastWait(cfg: Config, x: real)
    requires x > 0.0 && x * cfg.refillPerMs == 1.0 && cfg.refillPerMs > 0.0
    ensures IsLeastWait(cfg, Ceiling(x))
  {
    var w := Ceiling(x);
    Scaled(w as real, x, cfg.refillPerMs);
    Scaled((w - 1) as real, x, cfg.refillPerMs);
  }

  /** Waits of the same length earn the same. */
  lemma SameWait(cfg: Config, from: nat, to: nat, w: nat)
    requires cfg.Valid() && to == from + w
    ensures Earned(cfg, from, to) == Earned(cfg, 0, w)
  {}

  lemma ShorterWait(cfg: Config, v: nat, w: nat)
    requires cfg.Valid() && v <= w
    ensures Earned(cfg, 0, v) <= Earned(cfg, 0, w)
  {
    EarnedAdds(cfg, 0, v, w);
    EarnedAdds(cfg, v, w, w);
  }

  /** An emptied bucket that has seen a later clock is behind one that has not. */
  lemma EmptiedAnswer(cfg: Config, at: nat, late: nat, w: nat)
    requires cfg.Valid() && cfg.capacity >= 1.0 && at < late && IsLeastWait(cfg, w)
    ensures Refill(cfg, Some(Bucket(0.0, at)), at + w).tokens >= 1.0
    ensures Refill(cfg, Some(Bucket(0.0, late)), at + w).tokens < 1.0
  {
    SameWait(cfg, at, at + w, w);
    if at + w > late {
      SameWait(cfg, late, at + w, at + w - late);
      ShorterWait(cfg, at + w - late, w - 1);
    }
  }

  lemma EarlyCheckIsVisible(cfg: Config, m: Buckets, key: string, t: nat)
    requires cfg.Valid() && Bounded(cfg, m) && cfg.capacity >= 1.0 && cfg.refillPerMs > 0.0
    requires key in m && t > m[key].lastMs
    ensures !SameAnswers(cfg, m, Touch(cfg, m, key, t))
  {
    var at, o := m[key].lastMs, Touch(cfg, m, key, t);
    ApplyKeepsBounded(cfg, m, Check(key, t));
    var calls := Fails(key, at, Ceiling(cfg.capacity));
    Emptied(cfg, m, key, at);
    Emptied(cfg, o, key, at);
    var x := Inverse(cfg.refillPerMs);
    LeastWait(cfg, x);
    EmptiedAnswer(cfg, at, t, Ceiling(x));
    assert o[key].lastMs == t;
    TellApart(cfg, m, o, calls, key, at + Ceiling(x));
  }

  lemma Emptied(cfg: Config, m: Buckets, key: string, at: nat)
    requires Bounded(cfg, m) && cfg.capacity > 0.0 && key in m && at <= m[key].lastMs
    ensures Find(After(cfg, m, Fails(key, at, Ceiling(cfg.capacity))), key) == Some(Bucket(0.0, m[key].lastMs))
  {
    Drain(cfg, m, key, at, Ceiling(cfg.capacity));
  }

  lemma TellApart(cfg: Config, m: Buckets, o: Buckets, calls: seq<Call>, key: string, now: nat)
    requires Allows(cfg, After(cfg, m, calls), key, now) != Allows(cfg, After(cfg, o, calls), key, now)
    ensures !SameAnswers(cfg, m, o)
  {}

  /** Exactly when a check of `key` at `t` leaves no trace, whatever calls follow: when
      nothing is ever let in, when nothing is ever earned, or when the bucket's clock has
      already reached `t`. */
  lemma CheckIsInvisibleIff(cfg: Config, m: Buckets, key: string, t: nat)
    requires cfg.Valid() && Bounded(cfg, m)
    ensures SameAnswers(cfg, m, Touch(cfg, m, key, t))
       <==> cfg.capacity < 1.0 || cfg.refillPerMs == 0.0 || t <= LastMs(m, key)
  {
    var o := Touch(cfg, m, key, t);
    ApplyKeepsBounded(cfg, m, Check(key, t));
    if t <= LastMs(m, key) {
      LateCheckRefillsNothing(cfg, m, key, t);
      SameRefillsAnswer(cfg, m, o);
    } else if cfg.capacity < 1.0 || cfg.refillPerMs == 0.0 {
      ConstantAnswers(cfg, m, o, key, t);
    } else {
      var present := Touch(cfg, m, key, LastMs(m, key));
      ApplyKeepsBounded(cfg, m, Check(key, LastMs(m, key)));
      LateCheckRefillsNothing(cfg, m, key, LastMs(m, key));
      SameRefillsAnswer(cfg, m, present);
      EarlyCheckIsVisible(cfg, present, key, t);
      SameAfterPresence(cfg, m, key, t);
      if SameAnswers(cfg, m, o) {
        AnswersCompose(cfg, present, m, o);
      }
    }
  }

  lemma ConstantAnswers(cfg: Config, m: Buckets, o: Buckets, key: string, t: nat)
    requires cfg.Valid() && Bounded(cfg, m) && o == Touch(cfg, m, key, t)
    requires cfg.capacity < 1.0 || cfg.refillPerMs == 0.0
    ensures SameAnswers(cfg, m, o)
  {
    ApplyKeepsBounded(cfg, m, Check(key, t));
    forall calls: seq<Call>, k: string, now: nat
      ensures Allows(cfg, After(cfg, m, calls), k, now) == Allows(cfg, After(cfg, o, calls), k, now)
    {
      var x, y := After(cfg, m, calls), After(cfg, o, calls);
      AfterKeepsBounded(cfg, m, calls);
      AfterKeepsBounded(cfg, o, calls);
      if cfg.capacity < 1.0 {
        TinyNeverAllows(cfg, x, k, now);
        TinyNeverAllows(cfg, y, k, now);
      } else {
        RefillAddsNothing(cfg, m, key, t);
        assert SameTokens(cfg, m, o);
        SameTokensAfter(cfg, m, o, calls);
        RefillAddsNothing(cfg, x, k, now);
        RefillAddsNothing(cfg, y, k, now);
      }
    }
  }

  lemma SameAfterPresence(cfg: Config, m: Buckets, key: string, t: nat)
    requires cfg.Valid() && t > LastMs(m, key)
    ensures Touch(cfg, Touch(cfg, m, key, LastMs(m, key)), key, t) == Touch(cfg, m, key, t)
  {
    EarnedAdds(cfg, 0, t, t);
  }

  lemma AnswersCompose(cfg: Config, a: Buckets, b: Buckets, c: Buckets)
    requires SameAnswers(cfg, b, a) && SameAnswers(cfg, b, c)
    ensures SameAnswers(cfg, a, c)
  {
    forall calls: seq<Call>, key: string, now: nat
      ensures Allows(cfg, After(cfg, a, calls), key, now) == Allows(cfg, After(cfg, c, calls), key, now)
    {
      assert Allows(cfg, After(cfg, b, calls), key, now) == Allows(cfg, After(cfg, a, calls), key, now);
    }
  }

  /** Every map that calls can produce is one the theorem applies to. */
  lemma {:induction false} ReachableIsBounded(cfg: Config, calls: seq<Call>)
    requires cfg.Valid()
    ensures Bounded(cfg, ApplyAll(cfg, calls))
  {
    if calls != [] {
      ReachableIsBounded(cfg, Front(calls));
      ApplyKeepsBounded(cfg, ApplyAll(cfg, Front(calls)), Last(calls));
    }
  }
}
