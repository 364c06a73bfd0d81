/** Delay arithmetic of the retry loop: backoff ceiling, jitter and Retry-After, on 64-bit integers. */
module Backoff {
  import opened Options

  // time.Duration counts nanoseconds in an int64.
  const MILLISECOND := 1_000_000
  const SECOND := 1_000_000_000
  const RETRY_BASE := 500 * MILLISECOND
  const RETRY_CAP := 5 * SECOND

  const TWO63 := 0x8000_0000_0000_0000
  const TWO64 := 0x1_0000_0000_0000_0000

  predicate IsInt64(x: int) {
    -TWO63 <= x < TWO63
  }

  /** Two's-complement wrap-around to int64. */
  function Wrap64(x: int): (r: int)
    ensures IsInt64(r)
    ensures IsInt64(x) ==> r == x
  {
    (x + TWO63) % TWO64 - TWO63
  }

  function Pow2(k: nat): (p: nat)
    ensures p >= 1
  {
    if k == 0 then 1 else 2 * Pow2(k - 1)
  }

  /** Go's `1 << k` at type int64: shifting by the width or more yields 0. */
  function ShiftOne(k: nat): int {
    if k >= 64 then 0 else Wrap64(Pow2(k))
  }

  /** The upper end of the jitter range, computed as the source does, overflow included. */
  function Ceiling(attempt: nat): int
    requires attempt >= 1
  {
    var d := Wrap64(RETRY_BASE * ShiftOne(attempt - 1));
    if d > RETRY_CAP || d <= 0 then RETRY_CAP else d
  }

  function Min(a: int, b: int): int {
    if a <= b then a else b
  }

  lemma {:induction false} Pow2Sum(a: nat, b: nat)
    ensures Pow2(a + b) == Pow2(a) * Pow2(b)
  {
    if a > 0 {
      Pow2Sum(a - 1, b);
    }
  }

  lemma {:induction false} Pow2Monotone(a: nat, b: nat)
    requires a <= b
    ensures Pow2(a) <= Pow2(b)
  {
    if a < b {
      Pow2Monotone(a, b - 1);
    }
  }

  lemma Pow2Of3()
    ensures Pow2(3) == 8
  {
  }

  lemma Pow2Of31()
    ensures Pow2(31) == 0x8000_0000
  {
    assert Pow2(10) == 0x400;
    assert Pow2(20) == 0x10_0000;
  }

  lemma Pow2Of63()
    ensures Pow2(63) == TWO63
  {
    Pow2Of31();
    assert Pow2(42) == 0x400_0000_0000;
    assert Pow2(53) == 0x20_0000_0000_0000;
  }

  /** Wrapping a multiple of 2^40 leaves a multiple of 2^40. */
  lemma WrapMultiple(a: int) returns (c: int)
    ensures Wrap64(0x100_0000_0000 * a) == 0x100_0000_0000 * c
  {
    var q := (0x100_0000_0000 * a + TWO63) / TWO64;
    c := a - 0x100_0000 * q;
  }

  lemma LargeFactor(high: int)
    ensures var d := Wrap64(RETRY_BASE * (0x1_0000_0000 * high)); d > RETRY_CAP || d <= 0
  {
    var c := WrapMultiple(1_953_125 * high);
    assert RETRY_BASE * (0x1_0000_0000 * high) == 0x100_0000_0000 * (1_953_125 * high);
  }

  /** From the 33rd doubling on, the wrapped product is a multiple of 2^40, so it is never in (0, 5s]. */
  lemma LateProduct(k: nat)
    requires k >= 32
    ensures var d := Wrap64(RETRY_BASE * ShiftOne(k)); d > RETRY_CAP || d <= 0
  {
    if k == 63 {
      Pow2Of63();
      LargeFactor(-0x8000_0000);
    } else if k < 63 {
      var high := Pow2(k - 32);
      assert Pow2(k) == 0x1_0000_0000 * high by {
        Pow2Of31();
        Pow2Sum(32, k - 32);
        assert Pow2(32) == 2 * Pow2(31);
      }
      assert Pow2(k) < TWO63 by {
        Pow2Of63();
        Pow2Monotone(k + 1, 63);
      }
      LargeFactor(high);
    }
  }

  lemma SmallFactor(p: int)
    requires 0 < p <= 0x8000_0000
    ensures Wrap64(RETRY_BASE * Wrap64(p)) == RETRY_BASE * p
  {
  }

  /** Up to the 32nd doubling nothing wraps. */
  lemma EarlyProduct(k: nat)
    requires k < 32
    ensures Wrap64(RETRY_BASE * ShiftOne(k)) == RETRY_BASE * Pow2(k)
  {
    assert Pow2(k) <= 0x8000_0000 by {
      Pow2Of31();
      Pow2Monotone(k, 31);
    }
    SmallFactor(Pow2(k));
  }

  /** The wrapping computation equals the documented "base 500ms, doubled, capped at 5s" at every attempt. */
  lemma CeilingIsCappedDoubling(attempt: nat)
    requires attempt >= 1
    ensures Ceiling(attempt) == Min(RETRY_BASE * Pow2(attempt - 1), RETRY_CAP)
    ensures 0 < Ceiling(attempt) <= RETRY_CAP
  {
    var k := attempt - 1;
    if k < 32 {
      EarlyProduct(k);
    } else {
      LateProduct(k);
      assert Pow2(k) >= 16 by {
        Pow2Of3();
        Pow2Monotone(4, k);
      }
    }
  }

  /** rand.Int63n(n) as a function of an arbitrary draw; it panics unless n is positive. */
  function Int63n(n: int, draw: nat): int
    requires n > 0
  {
    draw % n
  }

  /** The delay before the next attempt. */
  function BackoffDelay(attempt: nat, retryAfter: int, draw: nat): (d: int)
    requires attempt >= 1
    ensures retryAfter > 0 ==> d == retryAfter
    ensures retryAfter <= 0 ==> 0 <= d <= Min(RETRY_BASE * Pow2(attempt - 1), RETRY_CAP)
  {
    CeilingIsCappedDoubling(attempt);
    if retryAfter > 0 then retryAfter else Int63n(Ceiling(attempt) + 1, draw)
  }

  /** Full jitter: the delays without a hint are all those from zero to the ceiling, and no others. */
  lemma JitterIsFull(attempt: nat, retryAfter: int, d: int)
    requires attempt >= 1 && retryAfter <= 0
    ensures (exists draw: nat :: BackoffDelay(attempt, retryAfter, draw) == d)
            <==> 0 <= d <= Min(RETRY_BASE * Pow2(attempt - 1), RETRY_CAP)
  {
    CeilingIsCappedDoubling(attempt);
    if 0 <= d <= Ceiling(attempt) {
      SmallRemainder(d, Ceiling(attempt) + 1);
      assert BackoffDelay(attempt, retryAfter, d) == d;
    }
  }

  lemma SmallRemainder(d: nat, n: nat)
    requires d < n
    ensures d % n == d
  {
  }

  predicate IsDigit(c: char) {
    '0' <= c <= '9'
  }

  predicate AllDigits(s: string) {
    s != "" && forall i :: 0 <= i < |s| ==> IsDigit(s[i])
  }

  /** The number a string of decimal digits denotes. */
  function DigitsValue(s: string): nat
    requires forall i :: 0 <= i < |s| ==> IsDigit(s[i])
  {
    if s == "" then 0 else
      assert IsDigit(s[|s| - 1]);
      10 * DigitsValue(s[..|s| - 1]) + (s[|s| - 1] as int - '0' as int)
  }

  /** strconv.Atoi: an optional sign and decimal digits, in the int64 range. */
  function Atoi(s: string): Option<int> {
    if s == "" then None
    else
      var signed := s[0] == '-' || s[0] == '+';
      var digits := if signed then s[1..] else s;
      if !AllDigits(digits) then None
      else
        var n: int := if s[0] == '-' then -(DigitsValue(digits) as int) else DigitsValue(digits);
        if IsInt64(n) then Some(n) else None
  }

  /**
   * The delay a Retry-After value asks for. untilDate is what http.ParseTime and the clock make of a
   * value that is no integer: the time left until that date, or None for an unreadable value.
   */
  function ParseRetryAfter(value: string, untilDate: Option<int>): Option<int> {
    if value == "" then None
    else match Atoi(value)
      case Some(secs) => if secs < 0 then None else Some(Wrap64(secs * SECOND))
      case None => match untilDate
        case Some(d) => Some(if d < 0 then 0 else d)
        case None => None
  }

  /** The canonical decimal rendering of a number of seconds. */
  function Decimal(n: nat): (s: string)
    ensures AllDigits(s)
  {
    if n < 10 then ['0' + n as char] else Decimal(n / 10) + ['0' + (n % 10) as char]
  }

  lemma {:induction false} DecimalValue(n: nat)
    ensures DigitsValue(Decimal(n)) == n
  {
    if n < 10 {
      assert Decimal(n)[..0] == "";
      assert DigitsValue("") == 0;
    } else {
      DecimalValue(n / 10);
      assert Decimal(n)[..|Decimal(n)| - 1] == Decimal(n / 10);
    }
  }

  lemma AtoiDecimal(n: nat)
    ensures Atoi(Decimal(n)) == if n < TWO63 then Some(n) else None
  {
    DecimalValue(n);
    assert IsDigit(Decimal(n)[0]);
  }

  /** A minus sign negates, a plus sign does nothing. */
  lemma AtoiSigned(n: nat)
    ensures Atoi("-" + Decimal(n)) == if n <= TWO63 then Some(-(n as int)) else None
    ensures Atoi("+" + Decimal(n)) == if n < TWO63 then Some(n) else None
  {
    DecimalValue(n);
    assert ("-" + Decimal(n))[1..] == Decimal(n) && ("+" + Decimal(n))[1..] == Decimal(n);
  }

  /** Some character of the value is neither a digit nor a leading sign, as in every HTTP date. */
  predicate HasStray(value: string) {
    exists i :: 0 <= i < |value| && !IsDigit(value[i]) && (i == 0 ==> value[0] != '-' && value[0] != '+')
  }

  lemma StrayIsNoNumber(value: string)
    requires HasStray(value)
    ensures Atoi(value).None?
  {
    var i :| 0 <= i < |value| && !IsDigit(value[i]) && (i == 0 ==> value[0] != '-' && value[0] != '+');
    if value[0] == '-' || value[0] == '+' {
      assert value[1..][i - 1] == value[i];
    }
  }

  /** A value that starts with neither a digit nor a sign has a stray character: its first. */
  lemma DateHasStray(value: string)
    requires value != "" && !IsDigit(value[0]) && value[0] != '-' && value[0] != '+'
    ensures HasStray(value)
  {
  }

  /** Such a value is read as the time left until the date it states, if it states one at all. */
  lemma RetryAfterDate(value: string, d: int)
    requires HasStray(value)
    ensures ParseRetryAfter(value, Some(d)) == Some(if d < 0 then 0 else d)
    ensures ParseRetryAfter(value, None) == None
  {
    StrayIsNoNumber(value);
  }

  /** A negative number of seconds is no hint. */
  lemma RetryAfterNegative(n: nat, untilDate: Option<int>)
    requires 0 < n <= TWO63 || (n > 0 && untilDate.None?)
    ensures ParseRetryAfter("-" + Decimal(n), untilDate) == None
  {
    AtoiSigned(n);
  }

  /** The largest delta-seconds value whose nanosecond count fits an int64. */
  const MAX_SECONDS := 9_223_372_036

  lemma RetryAfterRead(n: nat)
    ensures ParseRetryAfter(Decimal(n), None) == if n < TWO63 then Some(Wrap64(n * SECOND)) else None
  {
    AtoiDecimal(n);
  }

  /**
   * A delta-seconds value is read as exactly that many seconds if and only if it is at most
   * 9223372036. Beyond, the product wraps (or, from 2^63 on, the value is no longer an integer).
   */
  lemma RetryAfterExact(n: nat)
    ensures ParseRetryAfter(Decimal(n), None) == Some(n * SECOND) <==> n <= MAX_SECONDS
  {
    RetryAfterRead(n);
  }

  lemma WrappedProduct(n: nat)
    requires n == 18_446_744_074
    ensures Wrap64(n * SECOND) == 290_448_384
  {
  }

  /** The wrap-around is real: a hint of 584 years is read as about 0.29 seconds. */
  lemma RetryAfterWraps(n: nat)
    requires n == 18_446_744_074
    ensures n > MAX_SECONDS && ParseRetryAfter(Decimal(n), None) == Some(290_448_384)
  {
    WrappedProduct(n);
    RetryAfterRead(n);
  }

  function Sum(xs: seq<int>): int {
    if xs == [] then 0 else Sum(xs[..|xs| - 1]) + xs[|xs| - 1]
  }

  lemma {:induction false} SumBound(xs: seq<int>, bound: nat)
    requires forall i :: 0 <= i < |xs| ==> 0 <= xs[i] <= bound
    ensures 0 <= Sum(xs) <= |xs| * bound
  {
    if xs != [] {
      SumBound(xs[..|xs| - 1], bound);
    }
  }

  /** The largest total the jittered delays of n retries can reach. */
  function JitterBudget(n: nat): nat {
    if n <= 4 then RETRY_BASE * (Pow2(n) - 1) else 7500 * MILLISECOND + (n - 4) * RETRY_CAP
  }

  lemma JitterBudgetStep(n: nat)
    ensures JitterBudget(n + 1) == JitterBudget(n) + Min(RETRY_BASE * Pow2(n), RETRY_CAP)
  {
    Pow2Of3();
    if n >= 4 {
      assert Pow2(n) >= 16 by { Pow2Monotone(4, n); }
    } else {
      assert Pow2(n) <= 8 by { Pow2Monotone(n, 3); }
    }
  }

  lemma {:induction false} JitterBudgetGrows(a: nat, b: nat)
    requires a <= b
    ensures JitterBudget(a) <= JitterBudget(b)
  {
    if a < b {
      JitterBudgetGrows(a, b - 1);
      JitterBudgetStep(b - 1);
    }
  }

  /** Delays under their ceilings add up to no more than the budget. */
  lemma {:induction false} SumWithinBudget(ds: seq<int>)
    requires forall i :: 0 <= i < |ds| ==> ds[i] <= Min(RETRY_BASE * Pow2(i), RETRY_CAP)
    ensures Sum(ds) <= JitterBudget(|ds|)
  {
    if ds != [] {
      var n := |ds| - 1;
      SumWithinBudget(ds[..n]);
      JitterBudgetStep(n);
    }
  }
}
