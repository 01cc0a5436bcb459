/** The token bucket of `crates/auth/src/ratelimit.rs`, over exact reals: the
    object with its lazily created buckets, and the simple limiter it refines. */
module RateLimiter {
  import opened Prelude

  datatype Bucket = Bucket(tokens: real, lastMs: nat)

  type Buckets = map<string, Bucket>

  datatype Config = Config(capacity: real, refillPerMs: real) {
    /** A capacity is a `u32`, and tokens are not taken away by waiting. */
    predicate Valid() {
      capacity >= 0.0 && refillPerMs >= 0.0
    }
  }

  function RMin(a: real, b: real): real {
    if a <= b then a else b
  }

  function RMax(a: real, b: real): real {
    if a >= b then a else b
  }

  /** What waiting from `a` to `b` earns. */
  function Earned(cfg: Config, a: nat, b: nat): real
    requires a <= b
  {
    (b - a) as real * cfg.refillPerMs
  }

  /** Waiting earns at the configured rate, from nothing. */
  lemma EarnedIsProportional(cfg: Config, a: nat, b: nat)
    requires a <= b
    ensures Earned(cfg, a, b) == (b - a) as real * cfg.refillPerMs
    ensures Earned(cfg, a, a) == 0.0
  {}

  /** `refilled`: a full bucket on first sight, nothing for a clock that does not
      advance. */
  function Refill(cfg: Config, b: Option<Bucket>, now: nat): Bucket {
    match b
    case None => Bucket(cfg.capacity, now)
    case Some(b) =>
      if now > b.lastMs then Bucket(RMin(b.tokens + Earned(cfg, b.lastMs, now), cfg.capacity), now) else b
  }

  function Find(m: Buckets, key: string): Option<Bucket> {
    if key in m then Some(m[key]) else None
  }

  function Allows(cfg: Config, m: Buckets, key: string, now: nat): bool {
    Refill(cfg, Find(m, key), now).tokens >= 1.0
  }

  /** `allowed_at` refills and stores the bucket but takes nothing. */
  function Touch(cfg: Config, m: Buckets, key: string, now: nat): Buckets {
    m[key := Refill(cfg, Find(m, key), now)]
  }

  /** `record_failure_at` takes one token, or what is left. */
  function Charge(cfg: Config, m: Buckets, key: string, now: nat): Buckets {
    var b := Refill(cfg, Find(m, key), now);
    m[key := b.(tokens := RMax(b.tokens - 1.0, 0.0))]
  }

  class Limiter {
    const capacity: real
    const refillPerMs: real
    var buckets: map<string, Bucket>

    function Settings(): Config {
      Config(capacity, refillPerMs)
    }

    constructor (capacity: nat, refillPerSec: real)
      ensures Settings() == Config(capacity as real, refillPerSec / 1000.0)
      ensures buckets == map[]
    {
      this.capacity := capacity as real;
      this.refillPerMs := refillPerSec / 1000.0;
      buckets := map[];
    }

    method Refilled(key: string, now: nat) returns (bucket: Bucket)
      modifies this`buckets
      ensures buckets == Touch(Settings(), old(buckets), key, now) && bucket == buckets[key]
    {
      if key !in buckets {
        buckets := buckets[key := Bucket(capacity, now)];
      }
      bucket := buckets[key];
      var elapsed := if now > bucket.lastMs then now - bucket.lastMs else 0;
      if elapsed > 0 {
        bucket := Bucket(RMin(bucket.tokens + elapsed as real * refillPerMs, capacity), now);
        buckets := buckets[key := bucket];
      }
    }

    method AllowedAt(key: string, now: nat) returns (allowed: bool)
      modifies this`buckets
      ensures allowed == Allows(Settings(), old(buckets), key, now)
      ensures buckets == Touch(Settings(), old(buckets), key, now)
    {
      var bucket := Refilled(key, now);
      allowed := bucket.tokens >= 1.0;
    }

    method RecordFailureAt(key: string, now: nat)
      modifies this`buckets
      ensures buckets == Charge(Settings(), old(buckets), key, now)
    {
      var bucket := Refilled(key, now);
      buckets := buckets[key := bucket.(tokens := RMax(bucket.tokens - 1.0, 0.0))];
    }
  }

  // -------------------------------------------------- the simple limiter behind

  /** The level of a key at `now` from the times of its failures alone: full at
      first, one token less at each failure, refilled in between. */
  function Level(cfg: Config, failures: seq<nat>, now: nat): real
    decreases |failures|
  {
    if failures == [] then cfg.capacity
    else
      var f := Last(failures);
      var left := RMax(Level(cfg, Front(failures), f) - 1.0, 0.0);
      if now >= f then RMin(left + Earned(cfg, f, now), cfg.capacity) else left
  }

  datatype Call = Check(key: string, now: nat) | Fail(key: string, now: nat)

  function Apply(cfg: Config, m: Buckets, c: Call): Buckets {
    match c
    case Check(key, now) => Touch(cfg, m, key, now)
    case Fail(key, now) => Charge(cfg, m, key, now)
  }

  function ApplyAll(cfg: Config, calls: seq<Call>): Buckets {
    if calls == [] then map[] else Apply(cfg, ApplyAll(cfg, Front(calls)), Last(calls))
  }

  /** The times at which `key` was charged, in call order. */
  function FailTimes(calls: seq<Call>, key: string): seq<nat> {
    if calls == [] then []
    else
      var c := Last(calls);
      FailTimes(Front(calls), key) + (if c.Fail? && c.key == key then [c.now] else [])
  }

  /** The calls read a clock that does not go back, and `now` is not before them. */
  ghost predicate Ordered(calls: seq<Call>, now: nat) {
    calls == [] || (Last(calls).now <= now && Ordered(Front(calls), Last(calls).now))
  }

  lemma EarnedAdds(cfg: Config, a: nat, b: nat, d: nat)
    requires a <= b <= d && cfg.Valid()
    ensures Earned(cfg, a, d) == Earned(cfg, a, b) + Earned(cfg, b, d)
    ensures Earned(cfg, a, b) >= 0.0
  {
    assert (d - a) as real == (b - a) as real + (d - b) as real;
    var x, y, r := (b - a) as real, (d - b) as real, cfg.refillPerMs;
    assert (x + y) * r == x * r + y * r;
  }

  lemma LevelRange(cfg: Config, failures: seq<nat>, now: nat)
    requires cfg.Valid()
    ensures 0.0 <= Level(cfg, failures, now) <= cfg.capacity
    decreases |failures|
  {
    if failures != [] {
      var f := Last(failures);
      LevelRange(cfg, Front(failures), f);
      if now >= f { EarnedAdds(cfg, f, f, now); EarnedAdds(cfg, f, now, now); }
    }
  }

  /** Refills compose: looking at the level in between changes nothing. */
  lemma LevelComposes(cfg: Config, failures: seq<nat>, t: nat, now: nat)
    requires cfg.Valid() && t <= now
    requires failures != [] ==> Last(failures) <= t
    ensures Level(cfg, failures, now) == RMin(Level(cfg, failures, t) + Earned(cfg, t, now), cfg.capacity)
  {
    EarnedAdds(cfg, t, now, now);
    if failures != [] {
      EarnedAdds(cfg, Last(failures), t, now);
    }
  }

  /** A bucket stands for the level of its key from its last refill on. */
  ghost predicate Represents(cfg: Config, b: Option<Bucket>, failures: seq<nat>, upTo: nat) {
    match b
    case None => failures == []
    case Some(b) =>
      && b.lastMs <= upTo
      && (failures != [] ==> Last(failures) <= b.lastMs)
      && b.tokens == Level(cfg, failures, b.lastMs)
  }

  lemma RefillRepresents(cfg: Config, b: Option<Bucket>, failures: seq<nat>, upTo: nat, now: nat)
    requires cfg.Valid() && Represents(cfg, b, failures, upTo) && upTo <= now
    ensures var r := Refill(cfg, b, now);
            r.lastMs == now && r.tokens == Level(cfg, failures, now) && Represents(cfg, Some(r), failures, now)
  {
    if b.Some? {
      LevelComposes(cfg, failures, b.value.lastMs, now);
    }
  }

  lemma ChargeRepresents(cfg: Config, failures: seq<nat>, now: nat)
    requires cfg.Valid()
    ensures Level(cfg, failures + [now], now) == RMax(Level(cfg, failures, now) - 1.0, 0.0)
  {
    assert Front(failures + [now]) == failures;
    LevelRange(cfg, failures, now);
    assert Earned(cfg, now, now) == 0.0;
  }

  lemma {:induction false} BucketsRepresent(cfg: Config, calls: seq<Call>, key: string, now: nat)
    requires cfg.Valid() && Ordered(calls, now)
    ensures Represents(cfg, Find(ApplyAll(cfg, calls), key), FailTimes(calls, key), now)
  {
    if calls != [] {
      var front, c := Front(calls), Last(calls);
      BucketsRepresent(cfg, front, key, c.now);
      var failures := FailTimes(front, key);
      if c.key != key || c.Check? {
        assert FailTimes(calls, key) == failures;
      }
      if c.key == key {
        RefillRepresents(cfg, Find(ApplyAll(cfg, front), key), failures, c.now, c.now);
        if c.Fail? {
          ChargeRepresents(cfg, failures, c.now);
          assert FailTimes(calls, key) == failures + [c.now];
          assert ApplyAll(cfg, calls)[key].lastMs == c.now;
        }
      }
    }
  }

  /** Lazy creation and lazy refill are invisible: under an ordered clock the
      answer for a key is decided by the level computed from its failures. */
  lemma LazyRefinesSimple(cfg: Config, calls: seq<Call>, key: string, now: nat)
    requires cfg.Valid() && Ordered(calls, now)
    ensures Allows(cfg, ApplyAll(cfg, calls), key, now) <==> Level(cfg, FailTimes(calls, key), now) >= 1.0
  {
    BucketsRepresent(cfg, calls, key, now);
    RefillRepresents(cfg, Find(ApplyAll(cfg, calls), key), FailTimes(calls, key), now, now);
  }

  /** So adding or deleting any `allowed_at` calls, and anything at all on other
      keys, changes no later answer. */
  lemma ChecksAreInvisible(cfg: Config, calls: seq<Call>, others: seq<Call>, key: string, now: nat)
    requires cfg.Valid() && Ordered(calls, now) && Ordered(others, now)
    requires FailTimes(calls, key) == FailTimes(others, key)
    ensures Allows(cfg, ApplyAll(cfg, calls), key, now) == Allows(cfg, ApplyAll(cfg, others), key, now)
  {
    LazyRefinesSimple(cfg, calls, key, now);
    LazyRefinesSimple(cfg, others, key, now);
  }

  /** The clock is read before the lock is taken, so two threads may act out of
      order, and then a check does leave a trace: with one token refilling over ten
      seconds, a check at 20 s followed by a late failure from 10 s blocks the key
      at 20 s, which the same failures without the check do not. */
  lemma OutOfOrderCheckIsVisible()
    ensures var cfg := Config(1.0, 0.0001);
            var checked := [Fail("k", 0), Check("k", 20_000), Fail("k", 10_000)];
            var without := [Fail("k", 0), Fail("k", 10_000)];
            && FailTimes(checked, "k") == FailTimes(without, "k")
            && !Allows(cfg, ApplyAll(cfg, checked), "k", 20_000)
            && Allows(cfg, ApplyAll(cfg, without), "k", 20_000)
  {
    var cfg := Config(1.0, 0.0001);
    var checked := [Fail("k", 0), Check("k", 20_000), Fail("k", 10_000)];
    var without := [Fail("k", 0), Fail("k", 10_000)];
    assert Front(checked) == [Fail("k", 0), Check("k", 20_000)];
    assert Front(Front(checked)) == Front(without) == [Fail("k", 0)];
    assert Front(Front(without)) == [];
    var start := Charge(cfg, map[], "k", 0);
    assert ApplyAll(cfg, Front(without)) == start && start["k"] == Bucket(0.0, 0);
    assert ApplyAll(cfg, without) == Charge(cfg, start, "k", 10_000);
    assert ApplyAll(cfg, Front(checked)) == Touch(cfg, start, "k", 20_000);
    assert ApplyAll(cfg, checked) == Charge(cfg, Touch(cfg, start, "k", 20_000), "k", 10_000);
  }

  /** A key is let in again exactly when waiting has earned what it lacked: with
      no failure since `t`, the wait is `(1 - level) / refill` milliseconds. */
  lemma UnblocksAfterWaiting(cfg: Config, calls: seq<Call>, later: seq<Call>, key: string, t: nat, now: nat)
    requires cfg.Valid() && cfg.capacity >= 1.0
    requires Ordered(calls, t) && Ordered(calls + later, now) && t <= now
    requires FailTimes(calls + later, key) == FailTimes(calls, key)
    ensures Allows(cfg, ApplyAll(cfg, calls + later), key, now) <==>
            Earned(cfg, t, now) >= 1.0 - Level(cfg, FailTimes(calls, key), t)
  {
    LazyRefinesSimple(cfg, calls + later, key, now);
    FailuresBefore(calls, key, t);
    LevelComposes(cfg, FailTimes(calls, key), t, now);
  }

  lemma {:induction false} FailuresBefore(calls: seq<Call>, key: string, t: nat)
    requires Ordered(calls, t)
    ensures FailTimes(calls, key) != [] ==> Last(FailTimes(calls, key)) <= t
  {
    if calls != [] {
      FailuresBefore(Front(calls), key, Last(calls).now);
    }
  }
}
