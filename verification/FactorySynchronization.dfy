/**
 Retrying the synchronization of a factory's children (FactoryService).

 Each failure halves the query result limit, down to a floor, and doubles the delay.
 */
module FactorySynchronization {
  import opened Common

  const MIN_SYNCH_QUERY_RESULT_LIMIT: int := 200

  function Pow2(k: nat): (p: nat)
    ensures p >= 1
  {
    if k == 0 then 1 else 2 * Pow2(k - 1)
  }

  /** `1 << count` on ints: the distance is taken modulo 32 and bit 31 is the sign. */
  function ShiftOne(count: nat): int { ShiftBy(count % 32) }

  function ShiftBy(distance: nat): int { if distance == 31 then -0x8000_0000 else Pow2(distance) }

  /** The product of two longs. */
  function Product(a: int, b: int): int {
    var p := a * b;
    if IsLong(p) then p else (p + 0x8000_0000_0000_0000) % 0x1_0000_0000_0000_0000 - 0x8000_0000_0000_0000
  }

  predicate IsLong(x: int) { -0x8000_0000_0000_0000 <= x < 0x8000_0000_0000_0000 }

  datatype State = State(selfQueryResultLimit: int, retryCount: nat)

  /** One failed synchronization: the new state and, unless the retries are used up, the delay
      of the next attempt. */
  function Retry(s: State, maxRetries: nat, interval: int): (State, Option<int>) {
    var count := s.retryCount + 1;
    if count > maxRetries then (s.(retryCount := count), None)
    else (State(Max(s.selfQueryResultLimit / 2, MIN_SYNCH_QUERY_RESULT_LIMIT), count), Some(Product(ShiftOne(count), interval)))
  }

  class FactorySynchronizer {
    var selfQueryResultLimit: int
    var retryCount: nat
    const maxRetries: nat

    constructor (limit: nat, maxRetries: nat)
      ensures State(selfQueryResultLimit, retryCount) == State(limit, 0) && this.maxRetries == maxRetries
    {
      selfQueryResultLimit, retryCount, this.maxRetries := limit, 0, maxRetries;
    }

    method ScheduleSynchronizationRetry(stopping: bool, interval: int) returns (delay: Option<int>)
      requires selfQueryResultLimit >= 0
      modifies this
      ensures stopping ==> delay == None && unchanged(this)
      ensures !stopping ==>
                (State(selfQueryResultLimit, retryCount), delay)
                == Retry(State(old(selfQueryResultLimit), old(retryCount)), maxRetries, interval)
    {
      if stopping {
        return None;
      }
      retryCount := retryCount + 1;
      if retryCount > maxRetries {
        return None;
      }
      selfQueryResultLimit := Max(selfQueryResultLimit / 2, MIN_SYNCH_QUERY_RESULT_LIMIT);
      delay := Some(Product(ShiftOne(retryCount), interval));
    }
  }

  function After(s: State, k: nat, maxRetries: nat, interval: int): State {
    if k == 0 then s else Retry(After(s, k - 1, maxRetries, interval), maxRetries, interval).0
  }

  lemma HalfOfQuotient(n: nat, d: nat)
    requires d >= 1
    ensures n / d / 2 == n / (2 * d)
  {
    var q, r := n / d, n % d;
    assert n == q * d + r;
    var h, b := q / 2, q % 2;
    assert n == h * (2 * d) + (b * d + r);
    assert 0 <= b * d + r < 2 * d;
    QuotientIs(n, 2 * d, h, b * d + r);
  }

  lemma QuotientIs(n: int, d: int, q: int, r: int)
    requires d > 0 && n == q * d + r && 0 <= r < d
    ensures n / d == q
  {
    var x := n / d - q;
    assert x * d == r - n % d;
    assert x >= 1 ==> x * d >= d;
    assert x <= -1 ==> x * d <= -d;
  }

  /** The limit after k retries that started at `limit`. */
  function LimitAfter(limit: nat, k: nat): int {
    if k == 0 then limit else if limit / Pow2(k) > 200 then limit / Pow2(k) else 200
  }

  lemma HalvedOnce(limit: nat, k: nat)
    requires k > 0
    ensures Max(LimitAfter(limit, k - 1) / 2, MIN_SYNCH_QUERY_RESULT_LIMIT) == LimitAfter(limit, k)
  {
    HalfOfQuotient(limit, Pow2(k - 1));
  }

  /** After k >= 1 retries the limit is max(L / 2^k, 200). */
  lemma {:induction false} LimitAfterRetries(limit: nat, k: nat, maxRetries: nat, interval: int)
    requires k <= maxRetries
    ensures After(State(limit, 0), k, maxRetries, interval) == State(LimitAfter(limit, k), k)
  {
    if k > 0 {
      LimitAfterRetries(limit, k - 1, maxRetries, interval);
      HalvedOnce(limit, k);
    }
  }

  /** A failure is retried, and the limit changed, exactly while the retries are not used up. */
  lemma GivesUp(s: State, maxRetries: nat, interval: int)
    ensures
      var (t, delay) := Retry(s, maxRetries, interval);
      && t.retryCount == s.retryCount + 1
      && (delay.None? <==> s.retryCount >= maxRetries)
      && (delay.None? ==> t.selfQueryResultLimit == s.selfQueryResultLimit)
  {
  }

  lemma {:induction false} Pow2Grows(a: nat, b: nat)
    requires a < b
    ensures Pow2(a) < Pow2(b)
    decreases b
  {
    if a < b - 1 {
      Pow2Grows(a, b - 1);
    }
  }

  lemma ShiftByIsPower(k: nat, distance: nat)
    requires distance < 32 && (k < 32 ==> distance == k) && (k >= 32 ==> distance < k)
    ensures 0 <= Pow2(k) + ShiftBy(distance) && ShiftBy(distance) <= Pow2(k)
    ensures ShiftBy(distance) == Pow2(k) <==> k < 31
  {
    if distance == 31 {
      Pow2Large(k);
    } else if distance < k {
      Pow2Grows(distance, k);
    }
  }

  lemma Distance(k: nat)
    ensures 0 <= k % 32 < 32 && (k < 32 ==> k % 32 == k) && (k >= 32 ==> k % 32 < k)
  {
  }

  /** The shift is never larger than the power, and equal to it exactly below 31. */
  lemma ShiftIsPower(k: nat)
    ensures 0 <= Pow2(k) + ShiftOne(k) && ShiftOne(k) <= Pow2(k)
    ensures ShiftOne(k) == Pow2(k) <==> k < 31
  {
    Distance(k);
    ShiftByIsPower(k, k % 32);
  }

  lemma {:induction false} Pow2Large(k: nat)
    requires k >= 31
    ensures Pow2(k) >= 0x8000_0000
    decreases k
  {
    if k > 31 {
      Pow2Large(k - 1);
    } else {
      assert Pow2(8) == 256;
      assert Pow2(16) == 65536;
      assert Pow2(24) == 16777216;
    }
  }

  lemma Scaled(x: int, y: int, interval: nat)
    requires 0 <= x + y && x <= y
    ensures 0 <= x * interval + y * interval && x * interval <= y * interval
    ensures x * interval == y * interval <==> x == y || interval == 0
  {
    assert y * interval - x * interval == (y - x) * interval;
    assert x * interval + y * interval == (x + y) * interval;
  }

  /** A product of longs is a long, and the product itself up to multiples of 2^64. */
  lemma ProductWraps(a: int, b: int)
    ensures IsLong(Product(a, b)) && (a * b - Product(a, b)) % 0x1_0000_0000_0000_0000 == 0
  {
    var p, m := a * b, 0x1_0000_0000_0000_0000;
    if !IsLong(p) {
      var x := p + 0x8000_0000_0000_0000;
      assert p - Product(a, b) == x - x % m == m * (x / m);
    }
  }

  /** The delay of the k-th retry is 2^k intervals if and only if that is a long, and 2^k a positive
      int: from the 31st retry on the shift wraps. */
  lemma DelayOfRetry(s: State, k: nat, maxRetries: nat, interval: nat)
    requires s.retryCount + 1 == k <= maxRetries
    ensures Retry(s, maxRetries, interval).1 == Some(Pow2(k) * interval) <==>
              IsLong(Pow2(k) * interval) && (k < 31 || interval == 0)
  {
    ShiftIsPower(k);
    Scaled(ShiftOne(k), Pow2(k), interval);
  }
}
