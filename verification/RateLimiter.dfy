/** The permit-based rate limiter of the request simulator.

A clock is a function from the number of the reading to nanoseconds. Sleeping only lets the
clock advance. The double arithmetic of the refill is an exact rational, rounded toward zero.
 */
module RateLimiters {

  import opened Basics

  const NANOS_PER_SECOND := 1_000_000_000

  type Clock = nat -> int

  ghost predicate Passes(clock: Clock, t: int) {
    exists i: nat :: clock(i) >= t
  }

  /** The clock never goes back and passes every deadline. */
  ghost predicate Steady(clock: Clock) {
    && (forall i: nat, j: nat :: i <= j ==> clock(i) <= clock(j))
    && (forall t :: Passes(clock, t))
  }

  /** Permits earned in a stretch of time, negative at a negative rate. */
  function Earned(rate: int, nanos: int): int {
    var product := rate * nanos;
    if product >= 0 then product / NANOS_PER_SECOND else -(-product / NANOS_PER_SECOND)
  }

  /** Permits are whole ones per second of nanoseconds, rounded toward zero. */
  lemma {:induction false} EarnedRounds(rate: int, nanos: int)
    ensures rate * nanos >= 0 ==>
              Earned(rate, nanos) * 1_000_000_000 <= rate * nanos < (Earned(rate, nanos) + 1) * 1_000_000_000
    ensures rate * nanos <= 0 ==>
              (Earned(rate, nanos) - 1) * 1_000_000_000 < rate * nanos <= Earned(rate, nanos) * 1_000_000_000
  {
  }

  /** Rounding in pieces earns no more than rounding once, and a lower rate or a shorter time no
      more than a higher or a longer one. */
  lemma {:induction false} EarnedInPieces(rate: int, first: int, maxRate: int, second: int, span: int)
    requires rate <= maxRate && 0 <= maxRate && 0 <= first <= span && 0 <= second
    ensures 0 <= rate ==> 0 <= Earned(rate, first)
    ensures rate <= 0 ==> Earned(rate, first) <= 0
    ensures Earned(maxRate, second) <= Earned(maxRate, second + span)
    ensures Earned(maxRate, second) + Earned(rate, first) <= Earned(maxRate, second + span)
  {
    Product(0, 0, maxRate, second);
    Product(0, 0, maxRate, span);
    assert maxRate * (second + span) == maxRate * second + maxRate * span;
    FloorMonotone(maxRate * second, maxRate * (second + span));
    if rate >= 0 {
      Product(rate, first, maxRate, span);
      FloorsAdd(maxRate * second, rate * first);
      FloorMonotone(maxRate * second + rate * first, maxRate * (second + span));
    } else {
      Product(0, 0, -rate, first);
      assert rate * first == -(-rate * first);
    }
  }

  lemma {:induction false} Product(a: int, b: int, c: int, d: int)
    requires 0 <= a <= c && 0 <= b <= d
    ensures 0 <= a * b <= c * d
  {
    assert a * b <= c * b;
    assert c * b <= c * d;
  }

  lemma {:induction false} FloorsAdd(a: int, b: int)
    ensures a / NANOS_PER_SECOND + b / NANOS_PER_SECOND <= (a + b) / NANOS_PER_SECOND
  {
  }

  lemma {:induction false} FloorMonotone(a: int, b: int)
    requires a <= b
    ensures a / NANOS_PER_SECOND <= b / NANOS_PER_SECOND
  {
  }

  class RateLimiter {
    const clock: Clock
    const timeout: int

    var permits: int
    var permitsFillRate: int
    var lastRefillTime: int
    /** The number of clock readings so far. */
    var reading: nat

    ghost const initial: int
    ghost const startTime: int
    ghost var granted: int
    ghost var refilled: int
    /** How often permits were refilled. */
    ghost var refills: nat

    /** Permits are conserved; what was refilled and what was granted keep to the highest rate
        used. */
    ghost predicate Valid(maxRate: int)
      reads this
    {
      && Steady(clock)
      && 0 <= maxRate && permitsFillRate <= maxRate
      && granted + permits == initial + refilled
      && startTime <= lastRefillTime && reading > 0 && lastRefillTime <= clock(reading - 1)
      && refilled <= Earned(maxRate, lastRefillTime - startTime)
      && granted <= Max(0, initial) + Earned(maxRate, lastRefillTime - startTime)
    }

    constructor (initialPermits: int, permitsPerSecond: int, clock: Clock, timeout: int, ghost maxRate: int)
      requires Steady(clock) && permitsPerSecond <= maxRate && 0 <= maxRate
      ensures Valid(maxRate) && this.clock == clock && this.timeout == timeout
      ensures permits == initial == initialPermits && permitsFillRate == permitsPerSecond
      ensures startTime == clock(0) && granted == 0 && reading == 1
    {
      permits, permitsFillRate, lastRefillTime, reading := initialPermits, permitsPerSecond, clock(0), 1;
      this.clock, this.timeout := clock, timeout;
      initial, startTime, granted, refilled, refills := initialPermits, clock(0), 0, 0, 0;
    }

    method Now() returns (t: int)
      modifies `reading
      ensures t == clock(old(reading)) && reading == old(reading) + 1
    {
      t := clock(reading);
      reading := reading + 1;
    }

    /** Adds permits that the time since the last refill has earned. */
    method Fill(permitsToFill: int, resetTime: int, ghost maxRate: int)
      requires Valid(maxRate) && lastRefillTime <= resetTime <= clock(reading - 1)
      requires var before, after := Earned(maxRate, lastRefillTime - startTime), Earned(maxRate, resetTime - startTime);
               before <= after && before + permitsToFill <= after
      modifies `permits, `lastRefillTime, `refilled
      ensures Valid(maxRate) && permits == old(permits) + permitsToFill && lastRefillTime == resetTime
    {
      permits := permits + permitsToFill;
      refilled := refilled + permitsToFill;
      lastRefillTime := resetTime;
    }

    method RefillPermits(ghost maxRate: int)
      requires Valid(maxRate)
      modifies `permits, `lastRefillTime, `reading, `refilled, `refills
      ensures Valid(maxRate) && reading > old(reading) && refills == old(refills) + 1
      ensures permits == old(permits) + Earned(permitsFillRate, clock(old(reading)) - old(lastRefillTime))
      ensures clock(old(reading)) > old(lastRefillTime) ==>
                lastRefillTime == clock(old(reading) + 1) && reading == old(reading) + 2
      ensures clock(old(reading)) <= old(lastRefillTime) ==>
                lastRefillTime == old(lastRefillTime) && reading == old(reading) + 1
    {
      refills := refills + 1;
      var t := Now();
      var elapsed := t - lastRefillTime;
      if elapsed <= 0 {
        assert elapsed == 0;
        return;
      }
      var permitsToFill := Earned(permitsFillRate, elapsed);
      var resetTime := Now();
      EarnedInPieces(permitsFillRate, elapsed, maxRate, lastRefillTime - startTime, resetTime - lastRefillTime);
      Fill(permitsToFill, resetTime, maxRate);
    }

    /** One round of waiting: permits move the way of the rate. */
    method WaitForRefill(ghost maxRate: int) returns (now: int)
      requires Valid(maxRate)
      modifies `permits, `lastRefillTime, `reading, `refilled, `refills
      ensures Valid(maxRate) && refills == old(refills) + 1
      ensures permitsFillRate >= 0 ==> permits >= old(permits)
      ensures permitsFillRate <= 0 ==> permits <= old(permits)
      ensures reading > old(reading) && now == clock(reading - 1)
    {
      EarnedInPieces(permitsFillRate, clock(reading) - lastRefillTime, maxRate, 0, clock(reading) - lastRefillTime);
      RefillPermits(maxRate);
      now := Now();
    }

    /** Refills until there are enough permits or the deadline has passed. While it waits the
        code divides by the rate. */
    method WaitForPermits(count: int, deadline: int, ghost maxRate: int) returns (enough: bool)
      requires Valid(maxRate) && (permits >= count || permitsFillRate != 0)
      modifies `permits, `lastRefillTime, `reading, `refilled, `refills
      ensures Valid(maxRate) && reading >= old(reading)
      ensures enough ==> permits >= count
      ensures !enough ==> reading > old(reading) && clock(reading - 1) >= deadline
      ensures old(permits) >= count ==> enough && permits == old(permits)
      ensures old(permits) < count ==> refills > old(refills)
      ensures permitsFillRate > 0 ==> permits >= old(permits)
      ensures permitsFillRate < 0 ==> permits <= old(permits)
    {
      assert Passes(clock, deadline);
      ghost var last: nat :| clock(last) >= deadline;
      while permits - count < 0
        invariant Valid(maxRate) && reading >= old(reading) && refills >= old(refills)
        invariant permitsFillRate > 0 ==> permits >= old(permits)
        invariant permitsFillRate < 0 ==> permits <= old(permits)
        invariant old(permits) >= count ==> permits == old(permits)
        invariant permits == old(permits) || refills > old(refills)
        decreases last - reading
      {
        var now := WaitForRefill(maxRate);
        assert reading - 1 <= last || clock(last) <= now;
        if now >= deadline {
          return false;
        }
      }
      return true;
    }

    /** Takes the permits at once, or refills until there are enough, or fails and takes none;
        it fails only if it had to wait and the deadline passed. */
    method Acquire(count: int, ghost maxRate: int) returns (r: Result<int>)
      requires Valid(maxRate) && (permits >= count || permitsFillRate != 0)
      modifies this
      ensures Valid(maxRate) && reading > old(reading) && permitsFillRate == old(permitsFillRate)
      ensures granted == old(granted) + if r.Ok? then count else 0
      ensures old(permits) >= count ==> r.Ok? && permits == old(permits) - count
      ensures old(permits) < count ==> refills > old(refills)
      ensures old(permits) < count && permitsFillRate < 0 ==> r.Error? && permits <= old(permits)
      ensures old(permits) < count && r.Ok? ==> permits + count >= old(permits)
      ensures r.Error? ==> && r.code == DEADLINE_EXCEEDED && (permitsFillRate > 0 ==> permits >= old(permits))
                           && clock(reading - 1) >= clock(old(reading)) + timeout
      ensures r.Ok? ==> permits >= 0 && r.value == clock(reading - 1) - clock(old(reading)) >= 0
    {
      var startOfCall := Now();
      var enough := WaitForPermits(count, startOfCall + timeout, maxRate);
      if !enough {
        return Error(DEADLINE_EXCEEDED);
      }
      permits := permits - count;
      granted := granted + count;
      var now := Now();
      return Ok(now - startOfCall);
    }

    /** Any rate is accepted; the bound on what was earned holds for the highest one so far. */
    method SetFillRate(permitsPerSecond: int, ghost maxRate: int)
      requires Valid(maxRate)
      modifies `permitsFillRate
      ensures permitsFillRate == permitsPerSecond && Valid(Max(maxRate, permitsPerSecond))
    {
      ghost var span := lastRefillTime - startTime;
      EarnedInPieces(maxRate, span, Max(maxRate, permitsPerSecond), 0, span);
      permitsFillRate := permitsPerSecond;
    }
  }

  datatype Request = AcquirePermits(count: int) | ChangeRate(rate: int)

  predicate NoneReturned(requests: seq<Request>) {
    forall r :: r in requests && r.AcquirePermits? ==> r.count >= 0
  }

  /** In every run of requests, the permits granted by any time are at most the initial ones
      plus what the highest rate earns in that time, rounded down. */
  method GrantedStaysWithinRate(initial: int, rate: int, maxRate: int, clock: Clock, timeout: int,
          requests: seq<Request>)
    returns (granted: int, elapsed: int)
    requires Steady(clock) && rate != 0 && rate <= maxRate && 0 <= maxRate
    requires forall r :: r in requests && r.ChangeRate? ==> r.rate != 0 && r.rate <= maxRate
    ensures granted <= Max(0, initial) + Earned(maxRate, elapsed)
    ensures NoneReturned(requests) ==> granted >= 0
    ensures elapsed >= 0 && exists i: nat :: elapsed == clock(i) - clock(0)
  {
    var limiter := new RateLimiter(initial, rate, clock, timeout, maxRate);
    granted := 0;
    for i := 0 to |requests|
      invariant fresh(limiter) && limiter.clock == clock && limiter.initial == initial && limiter.startTime == clock(0)
      invariant limiter.Valid(maxRate) && limiter.permitsFillRate != 0 && granted == limiter.granted
      invariant NoneReturned(requests) ==> granted >= 0
    {
      match requests[i] {
        case AcquirePermits(count) =>
          var r := limiter.Acquire(count, maxRate);
          granted := granted + if r.Ok? then count else 0;
        case ChangeRate(newRate) =>
          limiter.SetFillRate(newRate, maxRate);
      }
    }
    elapsed := clock(limiter.reading - 1) - clock(0);
    EarnedInPieces(0, 0, maxRate, limiter.lastRefillTime - clock(0),
                   clock(limiter.reading - 1) - limiter.lastRefillTime);
  }
}
