/** Retries with capped exponential backoff, and the circuit breaker (crates/core/src/error/retry.rs).
    The multiplier is a real number; rounding of the source's floating point is not modelled. */
module Retry {
  import opened Common

  datatype TransportError =
    ConnectionFailed | AuthenticationFailed | NotAvailable | ConfigurationError | Ssh | Local | Tcp | Wsl
  datatype ProtocolError =
    Serialization | Deserialization | VersionMismatch | InvalidFormat | ChannelClosed | Timeout | BufferOverflow
  datatype DaemonError = NotRunning | AlreadyRunning | SocketError | ClientLimitReached | ShuttingDown

  datatype YuhaError =
    | Transport(transport: TransportError)
    | Protocol(protocol: ProtocolError)
    | Session
    | Config
    | Io
    | Clipboard
    | Browser
    | Auth
    | Daemon(daemon: DaemonError)
    | Internal

  predicate IsRetriable(e: YuhaError) {
    || e == Transport(ConnectionFailed)
    || e == Protocol(Timeout)
    || e == Protocol(ChannelClosed)
    || e == Io
    || e == Daemon(SocketError)
  }

  datatype RetryPolicy = RetryPolicy(
    maxAttempts: nat,
    initialDelay: Time,
    maxDelay: Time,
    multiplier: real,
    jitter: bool)

  // ----- Delays -----

  const U64_MAX: nat := 0xFFFF_FFFF_FFFF_FFFF

  function Pow(x: real, n: nat): real {
    if n == 0 then 1.0 else x * Pow(x, n - 1)
  }

  /** `(attempt - 1) as i32`: from 2^31 on the cast wraps to a negative exponent. */
  function Exponent(attempt: nat): int
    requires attempt > 0
  {
    if attempt - 1 < 0x8000_0000 then attempt - 1 else attempt - 1 - 0x1_0000_0000
  }

  /** `as u64` saturates. */
  function ToU64(r: real): nat {
    if r < 0.0 then 0 else if r.Floor > U64_MAX then U64_MAX else r.Floor
  }

  /** A zero power below the line gives infinity, or NaN for a zero initial delay, and both saturate. */
  function MillisAt(initial: real, multiplier: real, exponent: int): nat {
    if exponent >= 0 then ToU64(initial * Pow(multiplier, exponent))
    else if Pow(multiplier, -exponent) == 0.0 then (if initial == 0.0 then 0 else U64_MAX)
    else ToU64(initial / Pow(multiplier, -exponent))
  }

  /** The uncapped delay in milliseconds. */
  function RawMillis(p: RetryPolicy, attempt: nat): nat
    requires 0 < attempt <= 0x1_0000_0000
  {
    MillisAt((p.initialDelay / MILLISECOND) as real, p.multiplier, Exponent(attempt))
  }

  function BaseDelay(p: RetryPolicy, attempt: nat): (delay: Time)
    requires attempt <= 0x1_0000_0000
    ensures delay <= p.maxDelay
  {
    if attempt == 0 then 0 else Min(RawMillis(p, attempt) * MILLISECOND, p.maxDelay)
  }

  /** `draw` is the random number; the source draws it from 0 to a tenth of the delay in milliseconds. */
  function Jitter(delay: Time, draw: nat): (j: Time)
    ensures 10 * j <= delay
  {
    var range := delay / MILLISECOND / 10;
    assert 10 * (draw % (range + 1)) <= delay / MILLISECOND;
    (draw % (range + 1)) * MILLISECOND
  }

  function DelayForAttempt(p: RetryPolicy, attempt: nat, draw: nat): (delay: Time)
    requires attempt <= 0x1_0000_0000
    ensures BaseDelay(p, attempt) <= delay && 10 * delay <= 11 * BaseDelay(p, attempt)
  {
    var base := BaseDelay(p, attempt);
    if attempt > 0 && p.jitter then base + Jitter(base, draw) else base
  }

  lemma AtLeastItself(x: real, y: real)
    requires x >= 1.0 && y >= 1.0
    ensures x * y >= y
  {
    assert x * y - y == (x - 1.0) * y;
  }

  lemma {:induction false} PowMonotone(x: real, m: nat, n: nat)
    requires x >= 1.0 && m <= n
    ensures 1.0 <= Pow(x, m) <= Pow(x, n)
    decreases n
  {
    if n > 0 {
      if m == n {
        PowMonotone(x, m - 1, n - 1);
        AtLeastItself(x, Pow(x, m - 1));
      } else {
        PowMonotone(x, m, n - 1);
        AtLeastItself(x, Pow(x, n - 1));
      }
    }
  }

  lemma ToU64Monotone(small: real, large: real)
    requires small <= large
    ensures ToU64(small) <= ToU64(large)
  {
    assert small.Floor as real <= small && large < large.Floor as real + 1.0;
  }

  lemma ProductMonotone(factor: real, small: real, large: real)
    requires factor >= 0.0 && small <= large
    ensures factor * small <= factor * large
  {
  }

  lemma RatioMonotone(dividend: real, small: real, large: real)
    requires dividend >= 0.0 && 0.0 < small <= large
    ensures dividend / large <= dividend / small
  {
    assert dividend / small * large >= dividend / small * small == dividend;
  }

  lemma GrowthMonotone(initial: real, multiplier: real, d: nat, e: nat)
    requires initial >= 0.0 && multiplier >= 1.0 && d <= e
    ensures MillisAt(initial, multiplier, d) <= MillisAt(initial, multiplier, e)
  {
    var small, large := Pow(multiplier, d), Pow(multiplier, e);
    PowMonotone(multiplier, d, e);
    ProductMonotone(initial, small, large);
    ToU64Monotone(initial * small, initial * large);
  }

  lemma ShrinkMonotone(initial: real, multiplier: real, d: int, e: int)
    requires initial >= 0.0 && multiplier >= 1.0 && 0 < d <= e
    ensures MillisAt(initial, multiplier, -e) <= MillisAt(initial, multiplier, -d)
  {
    var small, large := Pow(multiplier, d), Pow(multiplier, e);
    PowMonotone(multiplier, d, e);
    RatioMonotone(initial, small, large);
    ToU64Monotone(initial / large, initial / small);
  }

  /** The last attempt whose exponent does not wrap. */
  const LAST: nat := 0x8000_0000

  lemma RawMillisMonotone(p: RetryPolicy, a: nat, b: nat)
    requires p.multiplier >= 1.0 && 1 <= a <= b <= 0x1_0000_0000 && (b <= LAST || LAST < a)
    ensures RawMillis(p, a) <= RawMillis(p, b)
  {
    var initial := (p.initialDelay / MILLISECOND) as real;
    if b <= LAST {
      GrowthMonotone(initial, p.multiplier, a - 1, b - 1);
    } else {
      ShrinkMonotone(initial, p.multiplier, 0x1_0000_0000 - (b - 1), 0x1_0000_0000 - (a - 1));
    }
  }

  lemma BaseDelayMonotone(p: RetryPolicy, a: nat, b: nat)
    requires p.multiplier >= 1.0 && 1 <= a <= b <= 0x1_0000_0000 && (b <= LAST || LAST < a)
    ensures BaseDelay(p, a) <= BaseDelay(p, b)
  {
    RawMillisMonotone(p, a, b);
    assert RawMillis(p, a) * MILLISECOND <= RawMillis(p, b) * MILLISECOND;
  }

  /** Up to attempt `n` no delay is shorter than an earlier one. */
  ghost predicate NeverShrinks(p: RetryPolicy, n: nat)
    requires n <= 0x1_0000_0000
  {
    forall a, b, draw :: 1 <= a <= b <= n ==> DelayForAttempt(p, a, draw) <= DelayForAttempt(p, b, draw)
  }

  /** Main result: without jitter and with a multiplier of at least one, delays never shrink up to attempt `n` exactly
      if `n` is at most 2^31 or the one step across the wrap of the exponent does not shrink. */
  lemma NeverShrinksIff(p: RetryPolicy, n: nat)
    requires p.multiplier >= 1.0 && !p.jitter && n <= 0x1_0000_0000
    ensures NeverShrinks(p, n) <==> n <= LAST || BaseDelay(p, LAST) <= BaseDelay(p, LAST + 1)
  {
    if n <= LAST || BaseDelay(p, LAST) <= BaseDelay(p, LAST + 1) {
      forall a, b, draw: nat | 1 <= a <= b <= n ensures DelayForAttempt(p, a, draw) <= DelayForAttempt(p, b, draw) {
        if b <= LAST || LAST < a {
          BaseDelayMonotone(p, a, b);
        } else {
          BaseDelayMonotone(p, a, LAST);
          BaseDelayMonotone(p, LAST + 1, b);
        }
      }
    } else {
      assert DelayForAttempt(p, LAST, 0) > DelayForAttempt(p, LAST + 1, 0);
    }
  }

  lemma OneMoreFactor(x: real, k: nat)
    requires x >= 1.0
    ensures x * (1.0 + k as real * (x - 1.0)) >= 1.0 + (k + 1) as real * (x - 1.0)
  {
    var d := x - 1.0;
    var kd := k as real * d;
    assert kd >= 0.0 && d * kd >= 0.0;
    assert x * (1.0 + kd) == x + x * kd == x + kd + d * kd;
    assert (k + 1) as real * d == kd + d;
  }

  /** Bernoulli's inequality. */
  lemma {:induction false} PowersGrow(x: real, n: nat)
    requires x >= 1.0
    ensures Pow(x, n) >= 1.0 + n as real * (x - 1.0)
  {
    if n > 0 {
      PowersGrow(x, n - 1);
      ProductMonotone(x, 1.0 + (n - 1) as real * (x - 1.0), Pow(x, n - 1));
      OneMoreFactor(x, n - 1);
    }
  }

  lemma RatioBelowOne(small: real, large: real)
    requires 0.0 <= small < large
    ensures 0.0 <= small / large < 1.0
  {
  }

  lemma ShrinksToNothing(initial: real, multiplier: real, e: int)
    requires initial >= 0.0 && multiplier >= 1.0 && e > 0 && initial < 1.0 + e as real * (multiplier - 1.0)
    ensures MillisAt(initial, multiplier, -e) == 0
  {
    PowersGrow(multiplier, e);
    RatioBelowOne(initial, Pow(multiplier, e));
  }

  /** A first delay of at most 2^31 milliseconds for every whole unit by which the multiplier exceeds one. */
  predicate Moderate(p: RetryPolicy) {
    (p.initialDelay / MILLISECOND) as real <= LAST as real * (p.multiplier - 1.0)
  }

  lemma DelayCollapsesAfterWrap(p: RetryPolicy, draw: nat)
    requires p.multiplier >= 1.0 && !p.jitter && Moderate(p)
    ensures DelayForAttempt(p, LAST + 1, draw) == 0
    ensures p.initialDelay >= MILLISECOND && p.maxDelay > 0 ==> DelayForAttempt(p, 1, draw) > 0
  {
    var initial := (p.initialDelay / MILLISECOND) as real;
    ShrinksToNothing(initial, p.multiplier, LAST);
    assert Pow(p.multiplier, 0) == 1.0;
    assert RawMillis(p, 1) == ToU64(initial);
  }

  lemma NothingToWaitFor(p: RetryPolicy, a: nat)
    requires p.multiplier >= 1.0 && 0 < a <= 0x1_0000_0000 && (p.initialDelay < MILLISECOND || p.maxDelay == 0)
    ensures BaseDelay(p, a) == 0
  {
    if p.initialDelay < MILLISECOND {
      var e := Exponent(a);
      PowMonotone(p.multiplier, 0, if e >= 0 then e else -e);
      assert ToU64(0.0) == 0;
    }
  }

  /** With such a first delay, as with the default policy, delays keep growing exactly up to attempt 2^31, unless there
      is nothing to wait for at all. */
  lemma ModerateShrinksAfterWrap(p: RetryPolicy, n: nat)
    requires p.multiplier >= 1.0 && !p.jitter && Moderate(p) && n <= 0x1_0000_0000
    ensures NeverShrinks(p, n) <==> n <= LAST || p.initialDelay < MILLISECOND || p.maxDelay == 0
  {
    NeverShrinksIff(p, n);
    if p.initialDelay < MILLISECOND || p.maxDelay == 0 {
      NothingToWaitFor(p, LAST);
    } else if n > LAST {
      DelayCollapsesAfterWrap(p, 0);
      assert DelayForAttempt(p, 1, 0) > DelayForAttempt(p, LAST + 1, 0);
    }
  }

  // ----- How the delays grow -----

  lemma ToU64OfWhole(n: nat)
    ensures ToU64(n as real) == Min(n, U64_MAX)
  {
  }

  /** The first retry waits for the initial delay in whole milliseconds, capped. */
  lemma FirstDelay(p: RetryPolicy, draw: nat)
    requires !p.jitter
    ensures DelayForAttempt(p, 1, draw)
         == Min(Min(p.initialDelay / MILLISECOND, U64_MAX) * MILLISECOND, p.maxDelay)
  {
    assert Pow(p.multiplier, 0) == 1.0;
    ToU64OfWhole(p.initialDelay / MILLISECOND);
  }

  lemma {:induction false} WholePower(k: nat, e: nat) returns (power: nat)
    ensures Pow(k as real, e) == power as real
  {
    if e == 0 {
      power := 1;
    } else {
      var before := WholePower(k, e - 1);
      power := k * before;
      assert (k * before) as real == k as real * before as real;
    }
  }

  lemma CapAfterProduct(k: nat, n: nat, cap: nat)
    requires k >= 1
    ensures Min(k * n, cap) == Min(k * Min(n, cap), cap)
  {
    if n > cap {
      assert k * n >= n && k * cap >= cap;
    }
  }

  lemma ProductOfWholes(a: nat, b: nat)
    ensures (a * b) as real == a as real * b as real
  {
  }

  lemma FactorsSwap(a: real, b: real, c: real)
    ensures a * (b * c) == b * (a * c)
  {
  }

  /** The exact number of milliseconds before rounding, and one attempt later. */
  lemma MillisFromPower(initial: real, m: real, e: nat) returns (exact: real, next: real)
    ensures exact == initial * Pow(m, e) && next == m * exact
    ensures MillisAt(initial, m, e) == ToU64(exact) && MillisAt(initial, m, e + 1) == ToU64(next)
  {
    var power := Pow(m, e);
    assert Pow(m, e + 1) == m * power;
    exact, next := initial * power, initial * (m * power);
    FactorsSwap(initial, m, power);
  }

  lemma WholeStep(k: nat, n: nat, exact: real, next: real)
    requires k >= 1 && exact == n as real && next == k as real * exact
    ensures ToU64(next) == Min(k * ToU64(exact), U64_MAX)
  {
    ProductOfWholes(k, n);
    ToU64OfWhole(n);
    ToU64OfWhole(k * n);
    CapAfterProduct(k, n, U64_MAX);
  }

  lemma WholeGrowth(initial: nat, k: nat, e: nat)
    requires k >= 1
    ensures MillisAt(initial as real, k as real, e + 1) == Min(k * MillisAt(initial as real, k as real, e), U64_MAX)
  {
    var exact, next := MillisFromPower(initial as real, k as real, e);
    var power := WholePower(k, e);
    ProductOfWholes(initial, power);
    WholeStep(k, initial * power, exact, next);
  }

  lemma MinScales(n: nat, limit: nat, unit: nat)
    ensures Min(n, limit) * unit == Min(n * unit, limit * unit)
  {
    if n <= limit {
      assert n * unit <= limit * unit;
    } else {
      assert limit * unit <= n * unit;
    }
  }

  lemma MinsSwap(x: nat, y: nat, limit: nat, cap: nat)
    requires Min(x, cap) == Min(y, cap)
    ensures Min(Min(x, limit), cap) == Min(Min(y, limit), cap)
  {
  }

  lemma CapsCommute(k: nat, raw: nat, unit: nat, limit: nat, cap: nat)
    requires k >= 1
    ensures Min(Min(k * raw, limit) * unit, cap) == Min(Min(k * Min(raw * unit, cap), limit * unit), cap)
  {
    MinScales(k * raw, limit, unit);
    assert k * raw * unit == k * (raw * unit);
    CapAfterProduct(k, raw * unit, cap);
    MinsSwap(k * (raw * unit), k * Min(raw * unit, cap), limit * unit, cap);
  }

  /** Main result: with a whole multiplier `k` and no jitter, up to attempt 2^31 each delay is exactly `k` times the one
      before, capped by the maximum delay and by the largest number of milliseconds. */
  lemma WholeMultiplierIsExact(p: RetryPolicy, k: nat, n: nat, draw: nat)
    requires !p.jitter && k >= 1 && p.multiplier == k as real && 1 <= n < LAST
    ensures DelayForAttempt(p, n + 1, draw)
         == Min(Min(k * DelayForAttempt(p, n, draw), U64_MAX * MILLISECOND), p.maxDelay)
  {
    var initial := p.initialDelay / MILLISECOND;
    WholeGrowth(initial, k, n - 1);
    CapsCommute(k, RawMillis(p, n), MILLISECOND, U64_MAX, p.maxDelay);
  }

  lemma StrictProduct(m: real, a: real, b: real)
    requires m > 0.0 && a < b
    ensures m * a < m * b
  {
  }

  lemma ProductWithin(m: real, whole: real, v: real, scaled: real, product: real)
    requires m > 0.0 && whole <= v < whole + 1.0 && scaled == m * whole && product == m * v
    ensures scaled <= product < scaled + m
  {
    var part := v - whole;
    assert product - scaled == m * part;
    assert m * part >= 0.0 && m * (1.0 - part) > 0.0;
    assert m * (1.0 - part) == m - m * part;
  }

  lemma ToU64Within(v: real)
    requires v >= 0.0 && ToU64(v) < U64_MAX
    ensures ToU64(v) as real <= v < ToU64(v) as real + 1.0
  {
  }

  lemma RoundedGrowth(v: real, m: real, product: real)
    requires v >= 0.0 && m > 0.0 && product == m * v && ToU64(v) < U64_MAX && ToU64(product) < U64_MAX
    ensures WithinRounding(m, ToU64(v), ToU64(product), 1)
  {
    ProductMonotone(m, 0.0, v);
    ToU64Within(v);
    ToU64Within(product);
    ProductWithin(m, ToU64(v) as real, v, m * ToU64(v) as real, product);
  }

  /** `next` is `m` times `now` but for rounding: both have been rounded down to whole units. */
  ghost predicate WithinRounding(m: real, now: nat, next: nat, unit: nat) {
    m * now as real - unit as real < next as real < m * now as real + m * unit as real
  }

  lemma {:induction false} PowNotNegative(x: real, n: nat)
    requires x >= 0.0
    ensures Pow(x, n) >= 0.0
  {
    if n > 0 {
      PowNotNegative(x, n - 1);
      ProductMonotone(x, 0.0, Pow(x, n - 1));
    }
  }

  lemma RealGrowth(initial: nat, m: real, e: nat)
    requires m > 0.0 && MillisAt(initial as real, m, e) < U64_MAX && MillisAt(initial as real, m, e + 1) < U64_MAX
    ensures WithinRounding(m, MillisAt(initial as real, m, e), MillisAt(initial as real, m, e + 1), 1)
  {
    var exact, next := MillisFromPower(initial as real, m, e);
    PowNotNegative(m, e);
    ProductMonotone(initial as real, 0.0, Pow(m, e));
    RoundedGrowth(exact, m, next);
  }

  ghost predicate BelowTheCaps(p: RetryPolicy, delay: Time) {
    delay < p.maxDelay && delay < U64_MAX * MILLISECOND
  }

  lemma UncappedIsRaw(p: RetryPolicy, n: nat, draw: nat)
    requires !p.jitter && 1 <= n <= LAST && BelowTheCaps(p, DelayForAttempt(p, n, draw))
    ensures RawMillis(p, n) < U64_MAX && DelayForAttempt(p, n, draw) == RawMillis(p, n) * MILLISECOND
  {
  }

  /** For any positive multiplier, a delay below the caps is the multiple of the one before, up to rounding: less than a
      millisecond short of it, and less than the multiplier's number of milliseconds beyond it. With a multiplier of at
      least one the earlier delay is below the caps if the later one is. */
  lemma MultiplierWithinRounding(p: RetryPolicy, n: nat, draw: nat)
    requires !p.jitter && p.multiplier > 0.0 && 1 <= n < LAST
    requires BelowTheCaps(p, DelayForAttempt(p, n + 1, draw))
    requires p.multiplier < 1.0 ==> BelowTheCaps(p, DelayForAttempt(p, n, draw))
    ensures WithinRounding(p.multiplier, DelayForAttempt(p, n, draw), DelayForAttempt(p, n + 1, draw), MILLISECOND)
  {
    if p.multiplier >= 1.0 {
      BaseDelayMonotone(p, n, n + 1);
    }
    UncappedIsRaw(p, n, draw);
    UncappedIsRaw(p, n + 1, draw);
    RealGrowth(p.initialDelay / MILLISECOND, p.multiplier, n - 1);
    InNanoseconds(p.multiplier, RawMillis(p, n), RawMillis(p, n + 1),
                  DelayForAttempt(p, n, draw), DelayForAttempt(p, n + 1, draw));
  }

  lemma InNanoseconds(m: real, now: nat, next: nat, delay: Time, nextDelay: Time)
    requires WithinRounding(m, now, next, 1)
    requires delay == now * MILLISECOND && nextDelay == next * MILLISECOND
    ensures WithinRounding(m, delay, nextDelay, MILLISECOND)
  {
    ProductOfWholes(now, MILLISECOND);
    ProductOfWholes(next, MILLISECOND);
    ScaledBounds(m, now as real, next as real, MILLISECOND as real);
  }

  lemma ScaledBounds(m: real, now: real, next: real, unit: real)
    requires unit > 0.0 && m * now - 1.0 < next < m * now + m
    ensures m * (now * unit) - unit < next * unit < m * (now * unit) + m * unit
  {
    assert m * (now * unit) == (m * now) * unit;
    StrictProduct(unit, m * now - 1.0, next);
    StrictProduct(unit, next, m * now + m);
    assert (m * now - 1.0) * unit == m * now * unit - unit;
    assert (m * now + m) * unit == m * now * unit + m * unit;
  }

  /** Once capped, the delay stays capped up to attempt 2^31. */
  lemma StaysCapped(p: RetryPolicy, n: nat, later: nat, draw: nat)
    requires !p.jitter && p.multiplier >= 1.0 && 1 <= n <= later <= LAST
    requires DelayForAttempt(p, n, draw) == p.maxDelay
    ensures DelayForAttempt(p, later, draw) == p.maxDelay
  {
    BaseDelayMonotone(p, n, later);
  }

  lemma {:induction false} ZeroPower(n: nat)
    requires n > 0
    ensures Pow(0.0, n) == 0.0
  {
    if n > 1 {
      ZeroPower(n - 1);
    }
  }

  /** A zero multiplier: no delay after the first one until the exponent wraps, and from then on the longest one, unless
      the first delay is nothing. */
  lemma ZeroMultiplier(p: RetryPolicy, n: nat, draw: nat)
    requires !p.jitter && p.multiplier == 0.0 && 2 <= n <= 0x1_0000_0000
    ensures DelayForAttempt(p, n, draw)
         == if n <= LAST || p.initialDelay < MILLISECOND then 0 else Min(U64_MAX * MILLISECOND, p.maxDelay)
  {
    var e := Exponent(n);
    ZeroPower(if e >= 0 then e else -e);
    ToU64OfWhole(0);
  }

  /** With jitter a delay is the one without plus a whole number of milliseconds, any number up to a tenth of it. */
  lemma JitterIff(p: RetryPolicy, n: nat, extra: nat)
    requires p.jitter && 0 < n <= 0x1_0000_0000
    ensures var plain := DelayForAttempt(p.(jitter := false), n, 0);
            (exists draw: nat :: DelayForAttempt(p, n, draw) == plain + extra * MILLISECOND) <==>
            extra <= plain / MILLISECOND / 10
  {
    var plain := DelayForAttempt(p.(jitter := false), n, 0);
    var range := plain / MILLISECOND / 10;
    if extra <= range {
      assert extra % (range + 1) == extra;
      assert DelayForAttempt(p, n, extra) == plain + extra * MILLISECOND;
    }
  }

  // ----- The retry loop -----

  datatype Attempt<T> = Success(value: T) | Failure(error: YuhaError)

  predicate ShouldRetry(p: RetryPolicy, e: YuhaError, attempt: nat) {
    attempt < p.maxAttempts && IsRetriable(e)
  }

  /** What is slept before call number `calls`. */
  ghost function Slept(p: RetryPolicy, draws: nat -> nat, calls: nat): nat
    requires calls <= 0x1_0000_0000
  {
    if calls <= 1 then 0 else Slept(p, draws, calls - 1) + DelayForAttempt(p, calls - 1, draws(calls - 1))
  }

  lemma {:induction false} SleptBound(p: RetryPolicy, draws: nat -> nat, calls: nat)
    requires 1 <= calls <= 0x1_0000_0000
    ensures 10 * Slept(p, draws, calls) <= (calls - 1) * (11 * p.maxDelay)
  {
    if calls > 1 {
      SleptBound(p, draws, calls - 1);
      assert (calls - 1) * (11 * p.maxDelay) == (calls - 2) * (11 * p.maxDelay) + 11 * p.maxDelay;
    }
  }

  lemma ProductBound(n: nat, m: nat, d: nat)
    requires n <= m
    ensures n * (11 * d) <= 11 * m * d
  {
    assert n * (11 * d) == 11 * (n * d);
    assert n * d <= m * d;
    assert 11 * m * d == 11 * (m * d);
  }

  lemma SleptWithin(p: RetryPolicy, draws: nat -> nat, calls: nat)
    requires 1 <= calls <= p.maxAttempts + 1 <= 0x1_0000_0000
    ensures 10 * Slept(p, draws, calls) <= 11 * p.maxAttempts * p.maxDelay
  {
    SleptBound(p, draws, calls);
    ProductBound(calls - 1, p.maxAttempts, p.maxDelay);
  }

  /** Runs `operation` until it succeeds, fails for good, or the attempts are used up. The point after the loop is never
      reached. */
  method RetryAsync<T>(p: RetryPolicy, operation: nat -> Attempt<T>, draws: nat -> nat)
    returns (result: Attempt<T>, calls: nat, slept: Time)
    requires p.maxAttempts < 0x1_0000_0000
    ensures 1 <= calls <= p.maxAttempts + 1
    ensures result == operation(calls - 1)
    ensures forall i :: 0 <= i < calls - 1 ==> operation(i).Failure? && IsRetriable(operation(i).error)
    ensures result.Failure? && IsRetriable(result.error) ==> calls == p.maxAttempts + 1
    ensures slept == Slept(p, draws, calls)
    ensures 10 * slept <= 11 * p.maxAttempts * p.maxDelay
  {
    slept := 0;
    calls := 0;
    var attempt := 0;
    while attempt <= p.maxAttempts
      invariant attempt == calls <= p.maxAttempts
      invariant forall i :: 0 <= i < calls ==> operation(i).Failure? && IsRetriable(operation(i).error)
      invariant slept == Slept(p, draws, calls)
      decreases p.maxAttempts + 1 - attempt
    {
      if attempt > 0 {
        slept := slept + DelayForAttempt(p, attempt, draws(attempt));
      }
      result := operation(attempt);
      calls := calls + 1;
      if result.Success? || !ShouldRetry(p, result.error, attempt) {
        SleptWithin(p, draws, calls);
        return;
      }
      attempt := attempt + 1;
    }
    assert false;
  }

  /** Without jitter and with a whole multiplier `k`, the sleeps of a run below the caps are a geometric sum: `k` - 1
      times all of them is the delay that would come next less the first one. */
  lemma {:induction false} SleptIsGeometric(p: RetryPolicy, draws: nat -> nat, k: nat, calls: nat)
    requires !p.jitter && k >= 1 && p.multiplier == k as real && 1 <= calls <= LAST
    requires BelowTheCaps(p, DelayForAttempt(p, calls, 0))
    ensures (k - 1) * Slept(p, draws, calls) == DelayForAttempt(p, calls, 0) - DelayForAttempt(p, 1, 0)
  {
    if calls > 1 {
      BaseDelayMonotone(p, calls - 1, calls);
      SleptIsGeometric(p, draws, k, calls - 1);
      WholeMultiplierIsExact(p, k, calls - 1, 0);
      OneMoreTerm(k, Slept(p, draws, calls - 1), DelayForAttempt(p, calls - 1, 0),
                  DelayForAttempt(p, calls, 0), DelayForAttempt(p, 1, 0));
    }
  }

  lemma OneMoreTerm(k: nat, sum: nat, term: nat, next: nat, first: nat)
    requires k >= 1 && (k - 1) * sum == term - first && next == k * term
    ensures (k - 1) * (sum + term) == next - first
  {
    assert (k - 1) * (sum + term) == (k - 1) * sum + (k - 1) * term;
    assert (k - 1) * term == k * term - term;
  }

  /** Three failed calls under the default policy without jitter sleep 100, 200 and 400 milliseconds. */
  lemma DefaultSleeps(p: RetryPolicy, draws: nat -> nat)
    requires p == RetryPolicy(3, 100 * MILLISECOND, 30 * SECOND, 2.0, false)
    ensures Slept(p, draws, 4) == 700 * MILLISECOND
  {
    var two: nat := 2;
    FirstDelay(p, 0);
    WholeMultiplierIsExact(p, two, 1, 0);
    WholeMultiplierIsExact(p, two, 2, 0);
    assert Slept(p, draws, 2) == 100 * MILLISECOND && Slept(p, draws, 3) == 300 * MILLISECOND;
  }

  /** The errors after which it is worth trying again. */
  lemma RetriableErrors(e: YuhaError)
    ensures IsRetriable(e) <==>
            e in {Transport(ConnectionFailed), Protocol(Timeout), Protocol(ChannelClosed), Io, Daemon(SocketError)}
  {
  }

  // ----- The circuit breaker -----

  datatype CircuitState = Closed | Open | HalfOpen

  datatype Breaker = Breaker(
    state: CircuitState,
    failureCount: nat,
    failureThreshold: nat,
    timeout: nat,
    lastFailureTime: Option<Time>)

  function NewBreaker(threshold: nat, timeout: nat): Breaker {
    Breaker(Closed, 0, threshold, timeout, None)
  }

  datatype Event = CanExecute(now: Time) | RecordSuccess | RecordFailure(now: Time)

  predicate Allows(b: Breaker, now: Time) {
    b.state == Open && b.lastFailureTime.Some? ==> Elapsed(now, b.lastFailureTime.value) >= b.timeout
  }

  function Observe(b: Breaker, event: Event): Breaker {
    match event
    case CanExecute(now) =>
      if b.state == Open && b.lastFailureTime.Some? && Allows(b, now) then b.(state := HalfOpen) else b
    case RecordSuccess => if b.state == Open then b else b.(state := Closed, failureCount := 0)
    case RecordFailure(now) =>
      var n := b.failureCount + 1;
      b.(failureCount := n, lastFailureTime := Some(now), state := if n >= b.failureThreshold then Open else b.state)
  }

  function Replay(threshold: nat, timeout: nat, trace: seq<Event>): Breaker {
    if trace == [] then NewBreaker(threshold, timeout)
    else Observe(Replay(threshold, timeout, trace[..|trace| - 1]), trace[|trace| - 1])
  }

  // The specification reads the trace only; it knows nothing of the breaker's fields.

  function LastFailure(trace: seq<Event>): Option<Time> {
    if trace == [] then None
    else if trace[|trace| - 1].RecordFailure? then Some(trace[|trace| - 1].now)
    else LastFailure(trace[..|trace| - 1])
  }

  /** Since the latest failure a caller has asked at a moment when the timeout had passed. */
  predicate Probed(trace: seq<Event>, timeout: nat) {
    if trace == [] then false else
      var before, last := trace[..|trace| - 1], trace[|trace| - 1];
      match last
      case RecordFailure(_) => false
      case RecordSuccess => Probed(before, timeout)
      case CanExecute(now) =>
        Probed(before, timeout)
        || (LastFailure(before).Some? && Elapsed(now, LastFailure(before).value) >= timeout)
  }

  /** The failures since the last success that had an effect: one recorded while calls were being let through. */
  function Failures(trace: seq<Event>, threshold: nat, timeout: nat): nat {
    if trace == [] then 0 else
      var before, last := trace[..|trace| - 1], trace[|trace| - 1];
      match last
      case RecordFailure(_) => Failures(before, threshold, timeout) + 1
      case CanExecute(_) => Failures(before, threshold, timeout)
      case RecordSuccess =>
        if Failures(before, threshold, timeout) < threshold || Probed(before, timeout) then 0
        else Failures(before, threshold, timeout)
  }

  function SpecState(trace: seq<Event>, threshold: nat, timeout: nat): CircuitState {
    if Failures(trace, threshold, timeout) < threshold then Closed
    else if Probed(trace, timeout) then HalfOpen
    else Open
  }

  lemma {:induction false} ReplayFollowsTrace(threshold: nat, timeout: nat, trace: seq<Event>)
    requires threshold >= 1
    ensures var b := Replay(threshold, timeout, trace);
            && b.failureThreshold == threshold && b.timeout == timeout
            && b.failureCount == Failures(trace, threshold, timeout)
            && b.lastFailureTime == LastFailure(trace)
            && b.state == SpecState(trace, threshold, timeout)
            && (b.state != Closed ==> b.lastFailureTime.Some?)
            && (Failures(trace, threshold, timeout) > 0 ==> LastFailure(trace).Some?)
  {
    if trace != [] {
      ReplayFollowsTrace(threshold, timeout, trace[..|trace| - 1]);
    }
  }

  /** Main result: the breaker is in the state that the trace of calls prescribes exactly if its threshold is at
      least one. */
  lemma BreakerRefinesTrace(threshold: nat, timeout: nat)
    ensures (forall trace :: Replay(threshold, timeout, trace).state == SpecState(trace, threshold, timeout)) <==>
            threshold >= 1
  {
    if threshold >= 1 {
      forall trace ensures Replay(threshold, timeout, trace).state == SpecState(trace, threshold, timeout) {
        ReplayFollowsTrace(threshold, timeout, trace);
      }
    } else {
      assert Replay(threshold, timeout, []).state == Closed != SpecState([], threshold, timeout);
    }
  }

  /** A call is refused exactly while the failures since the last effective success reach the threshold, no probe has
      been let through since the latest failure, and the timeout counted from that failure has not passed. */
  lemma RefusedIff(threshold: nat, timeout: nat, trace: seq<Event>, now: Time)
    requires threshold >= 1
    ensures !Allows(Replay(threshold, timeout, trace), now)
       <==> && Failures(trace, threshold, timeout) >= threshold
            && !Probed(trace, timeout)
            && LastFailure(trace).Some? && Elapsed(now, LastFailure(trace).value) < timeout
  {
    ReplayFollowsTrace(threshold, timeout, trace);
  }

  /** Every query among `events` comes before the timeout has passed since the latest failure, the first at `since`. */
  predicate AllEarly(events: seq<Event>, since: Time, timeout: nat) {
    if events == [] then true
    else match events[0]
      case CanExecute(now) => Elapsed(now, since) < timeout && AllEarly(events[1..], since, timeout)
      case RecordFailure(now) => AllEarly(events[1..], now, timeout)
      case RecordSuccess => AllEarly(events[1..], since, timeout)
  }

  /** Every query among `events` is answered with a refusal. */
  predicate AllRefused(b: Breaker, events: seq<Event>)
    decreases |events|
  {
    || events == []
    || ((events[0].CanExecute? ==> !Allows(b, events[0].now)) && AllRefused(Observe(b, events[0]), events[1..]))
  }

  /** Once open, the breaker refuses every call until the timeout has passed since the latest failure: successes
      recorded meanwhile change nothing and further failures only postpone the end. */
  lemma {:induction false} StaysOpen(b: Breaker, events: seq<Event>)
    requires b.state == Open && b.lastFailureTime.Some? && b.failureCount >= b.failureThreshold
    requires AllEarly(events, b.lastFailureTime.value, b.timeout)
    ensures AllRefused(b, events)
    decreases |events|
  {
    if events == [] {
    } else {
      StaysOpen(Observe(b, events[0]), events[1..]);
    }
  }

  /** A failure while half open opens the breaker again. */
  lemma FailureReopens(threshold: nat, timeout: nat, trace: seq<Event>, now: Time)
    requires threshold >= 1 && Replay(threshold, timeout, trace).state == HalfOpen
    ensures Replay(threshold, timeout, trace + [RecordFailure(now)]).state == Open
    ensures forall later ::
              !Allows(Replay(threshold, timeout, trace + [RecordFailure(now)]), later) <==>
              Elapsed(later, now) < timeout
  {
    ReplayFollowsTrace(threshold, timeout, trace);
    assert (trace + [RecordFailure(now)])[..|trace|] == trace;
  }

  class CircuitBreaker {
    var state: CircuitState
    var failureCount: nat
    const failureThreshold: nat
    const timeout: nat
    var lastFailureTime: Option<Time>

    ghost function State(): Breaker
      reads this
    {
      Breaker(state, failureCount, failureThreshold, timeout, lastFailureTime)
    }

    constructor (threshold: nat, timeout: nat)
      ensures State() == NewBreaker(threshold, timeout)
    {
      state, failureCount, lastFailureTime := Closed, 0, None;
      failureThreshold, this.timeout := threshold, timeout;
    }

    method CanExecute(now: Time) returns (allowed: bool)
      modifies this`state
      ensures allowed == Allows(old(State()), now)
      ensures State() == Observe(old(State()), Event.CanExecute(now))
    {
      match state {
        case Closed => allowed := true;
        case Open =>
          if lastFailureTime.Some? {
            if Elapsed(now, lastFailureTime.value) >= timeout {
              state := HalfOpen;
              allowed := true;
            } else {
              allowed := false;
            }
          } else {
            allowed := true;
          }
        case HalfOpen => allowed := true;
      }
    }

    method RecordSuccess()
      modifies this`state, this`failureCount
      ensures State() == Observe(old(State()), Event.RecordSuccess)
    {
      match state {
        case HalfOpen =>
          state := Closed;
          failureCount := 0;
        case Closed => failureCount := 0;
        case Open =>
      }
    }

    method RecordFailure(now: Time)
      modifies this
      ensures State() == Observe(old(State()), Event.RecordFailure(now))
    {
      failureCount := failureCount + 1;
      lastFailureTime := Some(now);
      if failureCount >= failureThreshold {
        state := Open;
      }
    }
  }
}
