/**
 How long a failed notification waits for its next attempt: doubling from a base to a ceiling, in 64-bit arithmetic.
 */
module NotifyBackoff {
  import opened Prelude

  const WORD := 0x1_0000_0000_0000_0000
  const HALF_WORD := 0x8000_0000_0000_0000
  const MAX_SHIFT := 20

  /** A product as a signed 64-bit register keeps it. */
  function Wrapped(x: int): int {
    var u := x % WORD;
    if u < HALF_WORD then u else u - WORD
  }

  /** The one number in the register's range that differs by a multiple of 2^64. */
  lemma WrapsExactly(x: int)
    ensures -0x8000_0000_0000_0000 <= Wrapped(x) < 0x8000_0000_0000_0000
    ensures (x - Wrapped(x)) % 0x1_0000_0000_0000_0000 == 0
  {
  }

  function PowerOfTwo(k: nat): nat {
    if k == 0 then 1 else 2 * PowerOfTwo(k - 1)
  }

  function Shift(attempt: int): nat {
    if attempt < 1 then 0 else if attempt - 1 > MAX_SHIFT then MAX_SHIFT else attempt - 1
  }

  /** `BackoffDelay`; a Retry-After hint is a floor. */
  function Delay(attempt: int, base: Time, max: Time, retryAfter: Option<Time>): Time {
    var product := Wrapped(base * PowerOfTwo(Shift(attempt)));
    var delay := if product <= 0 || product > max then max else product;
    match retryAfter
    case Some(hint) => if hint > delay then hint else delay
    case None => delay
  }

  /** The schedule as documented: the base, twice, four times the base, and so on, but never more than the ceiling. */
  function Scheduled(attempt: int, base: Time, max: Time): Time {
    var ideal := base * PowerOfTwo(Shift(attempt));
    if ideal < max then ideal else max
  }

  function AtLeast(delay: Time, hint: Option<Time>): Time {
    match hint
    case Some(h) => if h < delay then delay else h
    case None => delay
  }

  /**
   The delay is the scheduled one, or the hint if that is longer, if and only if the product fits into 64 bits, or wraps
   around to something out of range or no shorter than the ceiling, or the hint hides it.
   */
  lemma DelayExactly(attempt: int, base: Time, max: Time, retryAfter: Option<Time>)
    requires 0 < base < HALF_WORD && 0 < max < HALF_WORD
    ensures var ideal := base * PowerOfTwo(Shift(attempt));
            Delay(attempt, base, max, retryAfter) == AtLeast(Scheduled(attempt, base, max), retryAfter) <==>
            || ideal < HALF_WORD || Wrapped(ideal) <= 0 || Wrapped(ideal) >= max
            || (retryAfter.Some? && retryAfter.value >= max)
  {
    hide PowerOfTwo, Shift;
    Positive(Shift(attempt));
    PositiveProduct(base, PowerOfTwo(Shift(attempt)));
  }

  lemma PositiveProduct(x: int, y: int)
    requires x > 0 && y > 0
    ensures x * y > 0
  {
  }

  lemma {:induction false} Positive(k: nat)
    ensures PowerOfTwo(k) > 0
  {
    if k > 0 {
      Positive(k - 1);
    }
  }

  lemma {:induction false} Grows(j: nat, k: nat)
    requires j <= k
    ensures 0 < PowerOfTwo(j) <= PowerOfTwo(k)
  {
    Positive(j);
    if j < k {
      Grows(j, k - 1);
    }
  }

  lemma Million()
    ensures PowerOfTwo(20) == 0x10_0000
  {
    assert PowerOfTwo(4) == 16;
    assert PowerOfTwo(8) == 256;
    assert PowerOfTwo(12) == 4096;
    assert PowerOfTwo(16) == 65536;
  }

  /** With a base below 2^43 nanoseconds, some two hours and a half, no attempt ever overflows. */
  lemma ShortBasesNeverOverflow(attempt: int, base: Time, max: Time, retryAfter: Option<Time>)
    requires 0 < base < 0x800_0000_0000 && 0 < max < HALF_WORD
    ensures Delay(attempt, base, max, retryAfter) == AtLeast(Scheduled(attempt, base, max), retryAfter)
  {
    Million();
    Grows(Shift(attempt), MAX_SHIFT);
    Below(base, PowerOfTwo(Shift(attempt)), 0x800_0000_0000, 0x10_0000);
    DelayExactly(attempt, base, max, retryAfter);
  }

  lemma Below(x: int, y: int, p: int, q: int)
    requires 0 < x < p && 0 < y <= q
    ensures x * y < p * q
  {
    assert x * y <= x * q;
    assert x * q < p * q;
  }

  /** Later attempts wait no less, under the schedule. */
  lemma ScheduleGrows(attempt: int, later: int, base: Time, max: Time)
    requires 0 < base && attempt <= later
    ensures Scheduled(attempt, base, max) <= Scheduled(later, base, max) <= max
  {
    hide PowerOfTwo;
    Grows(Shift(attempt), Shift(later));
    TimesGrows(base, PowerOfTwo(Shift(attempt)), PowerOfTwo(Shift(later)));
  }

  lemma TimesGrows(x: int, p: int, q: int)
    requires 0 < x && p <= q
    ensures x * p <= x * q
  {
  }

  /** The first attempts wait the base, twice the base and four times the base. */
  lemma ScheduleStarts(base: Time, max: Time)
    requires 0 < base && 4 * base <= max
    ensures Scheduled(1, base, max) == base && Scheduled(2, base, max) == 2 * base
            && Scheduled(3, base, max) == 4 * base
  {
  }

  /**
   A base of 2^44 + 1 nanoseconds, some five hours, wraps around at the twenty-first attempt to about a millisecond.
   */
  lemma LongBaseWrapsAround()
    ensures Delay(21, 0x1000_0000_0001, 0x2000_0000_0000, None) == 0x10_0000
    ensures Scheduled(21, 0x1000_0000_0001, 0x2000_0000_0000) == 0x2000_0000_0000
  {
    Million();
  }
}
