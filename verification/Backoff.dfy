/**
 Retry delays in Go's int64 nanoseconds: exponential doubling with a cap and up to a fifth of jitter, for
 webhook events and for notifications. `draw` stands for what the random generator returns.
 */
module Backoff {
  import opened Common

  const MINUTE: int := 60_000_000_000

  const WEBHOOK_MIN: int := 2 * MINUTE
  const WEBHOOK_MAX: int := 120 * MINUTE
  const WEBHOOK_MAX_RETRY: nat := 8

  function Pow2(n: nat): (p: nat)
    ensures p >= 1
  {
    if n == 0 then 1 else 2 * Pow2(n - 1)
  }

  /** `time.Duration(1 << uint(n))`: a shift in 64 bits. */
  function Shift(n: nat): int {
    if n >= 64 then 0 else Wrap(Pow2(n))
  }

  /** The capped product, in int64 arithmetic. */
  function Base(min: int, max: int, n: nat): int {
    var base := Wrap(min * Shift(n));
    if base > max then max else base
  }

  /** What the doubling is meant to be, over unbounded integers. */
  function Ideal(min: int, max: int, n: nat): int {
    if min * Pow2(n) > max then max else min * Pow2(n)
  }

  /** The values `rand.Int64N(fifth)` may return. */
  predicate Drawn(draw: int, base: int) {
    0 <= draw < Quotient(base, 5)
  }

  /** `jitter`: no jitter when a fifth of the base is not positive. */
  function Jitter(base: int, draw: int): int {
    if Quotient(base, 5) <= 0 then 0 else draw
  }

  function WebhookDelay(n: nat, draw: int): int {
    var base := Base(WEBHOOK_MIN, WEBHOOK_MAX, n);
    var delay := Wrap(base + Jitter(base, draw));
    if delay > WEBHOOK_MAX then WEBHOOK_MAX else delay
  }

  /** The notification queue's delay has no such guard: `rand.Int64N` panics on an argument below one. */
  function NotificationDelay(min: int, max: int, n: nat, draw: int): Option<int> {
    var base := Base(min, max, n);
    if Quotient(base, 5) <= 0 then None else Some(Wrap(base + draw))
  }

  // ---------------------------------------------------------------- doubling

  lemma {:induction false} Pow2Grows(m: nat, n: nat)
    requires m <= n
    ensures Pow2(m) <= Pow2(n)
    decreases n - m
  {
    if m < n {
      Pow2Grows(m, n - 1);
    }
  }

  lemma Pow2Of63()
    ensures Pow2(63) == MAX_INT64 + 1
  {
    assert Pow2(7) == 128;
    MultiplyOut();
  }

  lemma MultiplyOut()
    requires Pow2(7) == 128
    ensures Pow2(63) == MAX_INT64 + 1
  {
    hide Pow2;
    Pow2Add(7, 7);
    Pow2Add(14, 14);
    Pow2Add(28, 28);
    Pow2Add(56, 7);
  }

  lemma {:induction false} Pow2Add(a: nat, b: nat)
    ensures Pow2(a + b) == Pow2(a) * Pow2(b)
  {
    if a > 0 {
      Pow2Add(a - 1, b);
      assert Pow2(a) * Pow2(b) == 2 * (Pow2(a - 1) * Pow2(b));
    }
  }

  lemma ProductBoundsFactor(min: int, p: nat)
    requires min >= 1
    ensures p <= min * p
  {
  }

  /** Wherever the product fits in 63 bits, the int64 arithmetic is the ideal capped doubling. */
  lemma BaseIsIdeal(min: int, max: int, n: nat)
    requires min >= 1 && min * Pow2(n) <= MAX_INT64
    ensures Base(min, max, n) == Ideal(min, max, n)
  {
    hide Pow2;
    ProductBoundsFactor(min, Pow2(n));
    Pow2Of63();
    if n >= 63 {
      Pow2Grows(63, n);
      assert false;
    }
    assert Shift(n) == Pow2(n);
  }

  lemma ProductGrows(min: int, p: nat, q: nat)
    requires min >= 1 && p <= q
    ensures min * p <= min * q
  {
  }

  lemma SmallPowers()
    ensures Pow2(0) == 1 && Pow2(1) == 2 && Pow2(2) == 4 && Pow2(3) == 8
            && Pow2(4) == 16 && Pow2(5) == 32 && Pow2(6) == 64
  {
    assert Pow2(3) == 8;
    assert Pow2(6) == 64;
  }

  /** For webhook events the product fits for every retry the queue can ask about, and well beyond. */
  lemma WebhookFits(n: nat)
    requires n <= 26
    ensures WEBHOOK_MIN * Pow2(n) <= MAX_INT64
  {
    hide Pow2;
    SmallPowers();
    Pow2Add(6, 6);
    Pow2Add(12, 12);
    Pow2Add(24, 2);
    Pow2Grows(n, 26);
    ProductGrows(WEBHOOK_MIN, Pow2(n), Pow2(26));
  }

  /** The capped doubling in minutes. */
  function BaseMinutes(n: nat): nat {
    if n < 6 then 2 * Pow2(n) else 120
  }

  lemma WebhookBase(n: nat)
    requires WEBHOOK_MIN * Pow2(n) <= MAX_INT64
    ensures Base(WEBHOOK_MIN, WEBHOOK_MAX, n) == BaseMinutes(n) * MINUTE
    ensures 2 <= BaseMinutes(n) <= 120 && (n < 6 ==> BaseMinutes(n) <= 64)
  {
    hide Base, Pow2;
    BaseIsIdeal(WEBHOOK_MIN, WEBHOOK_MAX, n);
    SmallPowers();
    if n < 6 {
      Pow2Grows(n, 5);
    } else {
      Pow2Grows(6, n);
    }
  }

  // ---------------------------------------------------------------- delays

  lemma WebhookDelayInRange(n: nat, draw: int)
    requires WEBHOOK_MIN * Pow2(n) <= MAX_INT64
    requires Drawn(draw, Base(WEBHOOK_MIN, WEBHOOK_MAX, n))
    ensures WEBHOOK_MIN <= BaseMinutes(n) * MINUTE <= WebhookDelay(n, draw) <= WEBHOOK_MAX
    ensures n < 6 ==> WebhookDelay(n, draw) < BaseMinutes(n) * (MINUTE + MINUTE / 5)
    ensures n >= 6 ==> WebhookDelay(n, draw) == WEBHOOK_MAX
  {
    hide Base, Pow2, BaseMinutes, Wrap;
    WebhookBase(n);
    if n >= 6 {
      CapFromSix(n);
    }
    var base := Base(WEBHOOK_MIN, WEBHOOK_MAX, n);
    assert Quotient(base, 5) == BaseMinutes(n) * (MINUTE / 5);
    assert FitsInt64(base + Jitter(base, draw));
  }

  /** Below the cap the delay is exactly the base and what was drawn. */
  lemma WebhookDelayIsBaseAndDraw(n: nat, draw: int)
    requires n < 6 && Drawn(draw, Base(WEBHOOK_MIN, WEBHOOK_MAX, n))
    ensures WebhookDelay(n, draw) == BaseMinutes(n) * MINUTE + draw
  {
    hide Base, Pow2, BaseMinutes, Wrap;
    WebhookFits(n);
    WebhookBase(n);
    var base := Base(WEBHOOK_MIN, WEBHOOK_MAX, n);
    assert Quotient(base, 5) == BaseMinutes(n) * (MINUTE / 5);
    assert FitsInt64(base + draw);
  }

  lemma CapFromSix(n: nat)
    requires n >= 6
    ensures BaseMinutes(n) == 120
  {
  }

  lemma BaseDoubles(m: nat, n: nat)
    requires m < n < 6
    ensures 2 * BaseMinutes(m) <= BaseMinutes(n)
  {
    Pow2Grows(m + 1, n);
  }

  /** Jitter never reorders: whatever is drawn, a later retry waits at least as long as an earlier one. */
  lemma WebhookDelaysNeverShrink(m: nat, n: nat, draw: int, draw': int)
    requires m < n && WEBHOOK_MIN * Pow2(n) <= MAX_INT64
    requires Drawn(draw, Base(WEBHOOK_MIN, WEBHOOK_MAX, m)) && Drawn(draw', Base(WEBHOOK_MIN, WEBHOOK_MAX, n))
    ensures WebhookDelay(m, draw) <= WebhookDelay(n, draw')
  {
    hide Base, Pow2, BaseMinutes, Wrap, WebhookDelay;
    Pow2Grows(m, n);
    ProductGrows(WEBHOOK_MIN, Pow2(m), Pow2(n));
    WebhookDelayInRange(m, draw);
    WebhookDelayInRange(n, draw');
    if n < 6 {
      BaseDoubles(m, n);
    }
  }

  /** The time that passes over the first `|draws|` retries. */
  function Sum(draws: seq<int>): int {
    if draws == [] then 0 else Sum(draws[..|draws| - 1]) + WebhookDelay(|draws| - 1, draws[|draws| - 1])
  }

  function Minutes(n: nat): nat {
    if n == 0 then 0 else Minutes(n - 1) + BaseMinutes(n - 1)
  }

  lemma {:induction false} PartialSums(draws: seq<int>)
    requires |draws| <= WEBHOOK_MAX_RETRY
    requires forall i :: 0 <= i < |draws| ==> Drawn(draws[i], Base(WEBHOOK_MIN, WEBHOOK_MAX, i))
    ensures Minutes(|draws|) * MINUTE <= Sum(draws)
    ensures Sum(draws) <= Minutes(|draws|) * MINUTE + Minutes(if |draws| <= 6 then |draws| else 6) * (MINUTE / 5)
    decreases |draws|
  {
    hide Base, Pow2, BaseMinutes, Wrap, WebhookDelay;
    var n := |draws|;
    if n > 0 {
      PartialSums(draws[..n - 1]);
      WebhookFits(n - 1);
      WebhookDelayInRange(n - 1, draws[n - 1]);
      if n > 6 {
        CapFromSix(n - 1);
      }
    }
  }

  lemma SixHours()
    ensures Minutes(6) == 126 && Minutes(8) == 366
  {
    SmallPowers();
    assert Minutes(3) == 14;
    assert Minutes(6) == 126;
  }

  /**
   The eight delays between the nine attempts that `MaxRetry(8)` allows span from 366 to 391.2 minutes,
   the promised six hours and a half, whatever jitter is drawn.
   */
  lemma WebhookEventsSpanSixHours(draws: seq<int>)
    requires |draws| == WEBHOOK_MAX_RETRY
    requires forall i :: 0 <= i < |draws| ==> Drawn(draws[i], Base(WEBHOOK_MIN, WEBHOOK_MAX, i))
    ensures 366 * 60_000_000_000 <= Sum(draws) <= 3912 * 6_000_000_000
  {
    hide Base, Pow2, BaseMinutes, Minutes, Wrap, WebhookDelay, Sum;
    PartialSums(draws);
    SixHours();
  }

  /**
   A base below 5 ns panics. From 5 ns on a notification's delay lies in [base, 1.2 base), unless the sum
   of base and draw leaves the int64 range: then it wraps, and the delay is negative.
   */
  lemma NotificationDelayInRange(min: int, max: int, n: nat, draw: int)
    ensures NotificationDelay(min, max, n, draw).None? <==> Base(min, max, n) < 5
    ensures var base, delay := Base(min, max, n), NotificationDelay(min, max, n, draw);
            Drawn(draw, base) ==>
              && delay.Some? && (base + draw <= MAX_INT64 ==> delay.value == base + draw)
              && (base <= delay.value && 5 * delay.value < 6 * base <==> base + draw <= MAX_INT64)
              && (delay.value < 0 <==> base + draw > MAX_INT64)
  {
  }

  /** The retry at which the product first leaves 63 bits wraps to a negative base. */
  lemma FirstOverflowPanics(min: int, max: int, n: nat, draw: int)
    requires min >= 5 && n > 0 && min * Pow2(n - 1) <= MAX_INT64 < min * Pow2(n)
    ensures NotificationDelay(min, max, n, draw) == None
  {
    hide Pow2, Quotient;
    Pow2Step(n);
    assert min * Pow2(n) == 2 * (min * Pow2(n - 1));
    FitsBelow61(min, n - 1);
    Pow2Of63();
    Pow2Grows(n, 62);
    Pow2Step(63);
    assert Shift(n) == Pow2(n);
    assert Wrap(min * Pow2(n)) < 0;
    NotificationDelayInRange(min, max, n, draw);
  }

  lemma Pow2Step(n: nat)
    requires n > 0
    ensures Pow2(n) == 2 * Pow2(n - 1)
  {
  }

  lemma FitsBelow61(min: int, n: nat)
    requires min >= 5 && min * Pow2(n) <= MAX_INT64
    ensures n <= 60
  {
    hide Pow2;
    if n > 60 {
      Pow2Of63();
      Pow2Step(63);
      Pow2Step(62);
      Pow2Grows(61, n);
      ProductGrows(min, Pow2(61), Pow2(n));
      assert false;
    }
  }

  lemma FittingProductIsServed(min: int, max: int, n: nat, draw: int)
    requires min >= 5 && max >= 5 && min * Pow2(n) <= MAX_INT64
    ensures NotificationDelay(min, max, n, draw).Some?
  {
    hide Pow2;
    BaseIsIdeal(min, max, n);
    ProductGrows(min, 1, Pow2(n));
    NotificationDelayInRange(min, max, n, draw);
  }

  lemma {:induction false} SomeRetryPanics(min: int, max: int, n: nat, draw: int) returns (m: nat)
    requires min >= 5 && min * Pow2(n) > MAX_INT64 && FitsInt64(min)
    ensures m <= n && NotificationDelay(min, max, m, draw).None?
  {
    if min * Pow2(n - 1) > MAX_INT64 {
      m := SomeRetryPanics(min, max, n - 1, draw);
    } else {
      m := n;
      FirstOverflowPanics(min, max, n, draw);
    }
  }

  /**
   How far a notification can be retried. Every retry counter up to `n` gets a delay if and only if both
   configured delays are at least 5 ns and min * 2^n fits in an int64; so the first counter for which it
   does not is the first to panic.
   */
  lemma RetriesServedExactlyWhen(min: int, max: int, n: nat, draw: int)
    requires FitsInt64(min) && FitsInt64(max)
    ensures (forall m: nat :: m <= n ==> NotificationDelay(min, max, m, draw).Some?) <==>
            min >= 5 && max >= 5 && min * Pow2(n) <= MAX_INT64
  {
    hide Pow2, NotificationDelay;
    if min >= 5 && max >= 5 {
      if min * Pow2(n) <= MAX_INT64 {
        forall m: nat | m <= n
          ensures NotificationDelay(min, max, m, draw).Some?
        {
          Pow2Grows(m, n);
          ProductGrows(min, Pow2(m), Pow2(n));
          FittingProductIsServed(min, max, m, draw);
        }
      } else {
        var m := SomeRetryPanics(min, max, n, draw);
      }
    } else {
      SmallDelayPanics(min, max, draw);
    }
  }

  lemma SmallDelayPanics(min: int, max: int, draw: int)
    requires FitsInt64(min) && FitsInt64(max) && (min < 5 || max < 5)
    ensures NotificationDelay(min, max, 0, draw).None?
  {
    assert Shift(0) == 1;
  }

  const SECOND: int := 1_000_000_000

  /** With the shipped defaults of 15 seconds and 30 minutes, retry counter 30 is the first to panic. */
  lemma DefaultsPanicAtThirty(n: nat, draw: int)
    ensures (forall m: nat :: m <= n ==> NotificationDelay(15 * SECOND, 30 * MINUTE, m, draw).Some?) <==> n < 30
    ensures NotificationDelay(15 * SECOND, 30 * MINUTE, 30, draw).None?
  {
    hide Pow2, NotificationDelay;
    RetriesServedExactlyWhen(15 * SECOND, 30 * MINUTE, n, draw);
    SmallPowers();
    Pow2Add(6, 6);
    Pow2Add(12, 12);
    Pow2Add(24, 5);
    Pow2Add(24, 6);
    if n < 30 {
      Pow2Grows(n, 29);
    } else {
      Pow2Grows(30, n);
    }
    FirstOverflowPanics(15 * SECOND, 30 * MINUTE, 30, draw);
  }

  /** Beyond 63 doublings the shift itself yields zero, and the draw panics whatever is configured. */
  lemma TooManyDoublingsPanic(min: int, max: int, n: nat, draw: int)
    requires n >= 64
    ensures NotificationDelay(min, max, n, draw) == None
  {
  }
}
