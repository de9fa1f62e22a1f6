/** The token buckets of the rate limiter, with the widths of the source: limits are 64 bits and signed,
    rates 64 bits and unsigned, ticks 32 bits and unsigned. */
module TokenBucket {
  import opened Basics

  type Tick = t: int | 0 <= t < TWO32
  type Limit = l: int | -SSIZE_MAX - 1 <= l <= SSIZE_MAX

  /** What ev_token_bucket_cfg_new lets through, for one direction. */
  datatype Config = Config(rate: int, maximum: int)
  {
    predicate Ok() { 1 <= rate <= maximum <= SSIZE_MAX }
  }

  /** A difference of unsigned numbers of 64 bits. */
  function Minus64(a: int, b: int): (d: int)
    ensures 0 <= d < TWO64
  {
    (a - b) % TWO64
  }

  /** The signed number that 64 bits stand for. */
  function Signed64(a: int): Limit { if a % TWO64 > SSIZE_MAX then a % TWO64 - TWO64 else a % TWO64 }

  function Min(a: int, b: int): int { if a <= b then a else b }

  /** How many ticks a bucket sees between two of its updates: none when time has gone back. */
  function Elapsed(last: Tick, now: Tick): (n: nat)
    ensures n <= INT_MAX
  {
    var n := (now - last) % TWO32;
    if n > INT_MAX then 0 else n
  }

  /** Between two ticks that lie d apart, across any wrap: d, or none when d is so large that it stands for
      time that has gone back. */
  lemma ElapsedWraps(last: Tick, d: nat)
    requires d < TWO32
    ensures Elapsed(last, (last + d) % TWO32) == if d <= INT_MAX then d else 0
  {
    if last + d >= TWO32 {
      assert (last + d) % TWO32 == last + d - TWO32;
    }
    assert ((last + d) % TWO32 - last) % TWO32 == d;
  }

  /** The bucket is above its maximum, and too far for the wrapped difference to be used up. */
  predicate Stays(limit: Limit, cfg: Config, n: nat) {
    limit > cfg.maximum && n * cfg.rate < TWO64 - (limit - cfg.maximum)
  }

  /** What n ticks do to a limit: nothing, or a refill. */
  ghost predicate Topped(before: Limit, cfg: Config, n: nat, after: Limit) {
    var sum := before + n * cfg.rate;
    if n == 0 then after == before
    else if !Stays(before, cfg, n) then after == Min(cfg.maximum, sum)
    else after == if sum <= SSIZE_MAX then sum else sum - TWO64
  }

  /** A limit that a caller has raised above the maximum, so far that the refill overflows and leaves
      the bucket empty. */
  predicate Sinks(limit: Limit, cfg: Config, n: nat) {
    Stays(limit, cfg, n) && n > 0 && SSIZE_MAX < limit + n * cfg.rate <= TWO64
  }

  lemma ToppedNot(limit: Limit, cfg: Config)
    ensures Topped(limit, cfg, 0, limit) && !Sinks(limit, cfg, 0)
  {
  }

  /** An update empties no bucket, but for the overflow. */
  lemma ToppedUp(before: Limit, cfg: Config, n: nat, after: Limit)
    requires cfg.Ok() && n <= INT_MAX && Topped(before, cfg, n, after)
    ensures before > 0 && !Sinks(before, cfg, n) ==> after > 0
    ensures Sinks(before, cfg, n) ==> before > 0 && after <= 0
  {
    if n > 0 {
      Monotone(n, 1, cfg.rate);
    }
  }

  /** The refill of one direction, as the source computes it. */
  method Refill(limit: Limit, cfg: Config, n: nat) returns (after: Limit)
    requires cfg.Ok() && 0 < n <= INT_MAX
    ensures limit <= cfg.maximum ==> after == Min(cfg.maximum, limit + n * cfg.rate)
    ensures after == Min(cfg.maximum, limit + n * cfg.rate) <==> !Stays(limit, cfg, n)
    ensures Topped(limit, cfg, n, after)
  {
    Quotient(Minus64(cfg.maximum, limit), n, cfg.rate);
    Refilled(limit, cfg, n * cfg.rate);
    if Minus64(cfg.maximum, limit) / n < cfg.rate {
      after := cfg.maximum;
    } else {
      after := Signed64(limit + n * cfg.rate);
    }
  }

  lemma Quotient(a: int, n: int, r: int)
    requires n > 0
    ensures a / n < r <==> a < n * r
  {
    var q, m := a / n, a % n;
    assert a == n * q + m;
    if q < r {
      Monotone(n, q + 1, r);
    } else {
      Monotone(n, r, q);
    }
  }

  lemma Monotone(n: int, a: int, b: int)
    requires n > 0 && a <= b
    ensures n * a <= n * b
  {
    assert n * (b - a) >= 0;
  }

  lemma Wrapped(a: int)
    ensures 0 <= a < TWO64 ==> a % TWO64 == a
    ensures -TWO64 <= a < 0 ==> a % TWO64 == a + TWO64
    ensures TWO64 <= a < 2 * TWO64 ==> a % TWO64 == a - TWO64
  {
  }

  /** The refill by p tokens: the choice between the two branches, and the sum without overflow. */
  lemma Refilled(limit: Limit, cfg: Config, p: int)
    requires cfg.Ok() && p > 0
    ensures
      var left := Minus64(cfg.maximum, limit);
      && (limit <= cfg.maximum ==> left == cfg.maximum - limit)
      && (limit > cfg.maximum ==> left == TWO64 - (limit - cfg.maximum))
      && (left >= p ==> Signed64(limit + p) == if limit + p <= SSIZE_MAX then limit + p else limit + p - TWO64)
  {
    Wrapped(cfg.maximum - limit);
    Wrapped(limit + p);
  }

  /** What the division does not do: a limit that was raised above the maximum is not brought down to it,
      and near the end of its range it overflows. */
  lemma NotClamped()
    ensures Topped(100, Config(10, 10), 3, 130)
    ensures Sinks(SSIZE_MAX, Config(10, 10), 1)
  {
    assert Stays(100, Config(10, 10), 3);
    assert Stays(SSIZE_MAX, Config(10, 10), 1);
  }
}
