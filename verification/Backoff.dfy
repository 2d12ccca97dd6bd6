/** The exponential-with-jitter schedule of app/fanout/backoff.py over exact
    reals. Floating point enters in one place only: multiplying the float base
    by the integer `2 ** attempt` raises OverflowError once that integer no
    longer fits a double, which happens from attempt 1024 on. */
module Backoff {
  import opened Reals

  const BASE := 1.0
  const CAP := 60.0
  const JITTER := 0.2
  const FLOAT_EXPONENT_LIMIT := 1024

  datatype Outcome = Delay(seconds: real) | NegativeAttempt | FloatOverflow

  function Pow2(n: nat): (p: nat)
    ensures p >= 1
  {
    if n == 0 then 1 else 2 * Pow2(n - 1)
  }

  /** The delay before jitter. */
  function Nominal(attempt: nat): real {
    Min(CAP, BASE * Pow2(attempt) as real)
  }

  /** `r` is the value `random()` returns, in [0, 1). */
  function ComputeBackoff(attempt: int, r: real): Outcome {
    if attempt < 0 then NegativeAttempt
    else if attempt >= FLOAT_EXPONENT_LIMIT then FloatOverflow
    else
      Delay(WithJitter(Nominal(attempt), r))
  }

  function Product(x: real, y: real): real { x * y }

  function WithJitter(raw: real, r: real): real {
    Max(0.0, raw + Product(raw * JITTER, 2.0 * r - 1.0))
  }

  /** The least delay attempt number `attempt` can be given. */
  function MinDelay(attempt: nat): real { 0.8 * Nominal(attempt) }

  /** How far, over the first `attempt` delays, the schedule may fall behind a
      steady 48 seconds (80% of the cap) per attempt. */
  function Debt(attempt: nat): real {
    if attempt == 0 then 0.0 else Debt(attempt - 1) + 48.0 - MinDelay(attempt - 1)
  }

  const MAX_DEBT := 237.6

  lemma Pow2Large(n: nat)
    requires n >= 6
    ensures Pow2(n) >= 64
  {
  }

  /** The schedule never falls more than `MAX_DEBT` behind, and its debt only
      grows: from the seventh attempt on every delay is the capped one. */
  lemma {:induction false} DebtBounded(attempt: nat)
    ensures 0.0 <= Debt(attempt) <= MAX_DEBT
    ensures attempt >= 6 ==> Debt(attempt) == MAX_DEBT
    ensures MinDelay(attempt) == 48.0 - (Debt(attempt + 1) - Debt(attempt))
    ensures 0.8 <= MinDelay(attempt) <= 48.0
  {
    if attempt > 0 {
      DebtBounded(attempt - 1);
    }
    if attempt >= 6 {
      Pow2Large(attempt);
      if attempt > 6 {
        Pow2Large(attempt - 1);
      } else {
        assert Pow2(1) == 2 && Pow2(2) == 4 && Pow2(3) == 8 && Pow2(4) == 16 && Pow2(5) == 32;
        assert MinDelay(5) == 25.6 && MinDelay(4) == 12.8 && MinDelay(3) == 6.4;
        assert Debt(3) == 3.0 * 48.0 - 5.6;
        assert Debt(6) == Debt(3) + 3.0 * 48.0 - 44.8;
      }
    } else {
      assert Pow2(1) == 2 && Pow2(2) == 4 && Pow2(3) == 8 && Pow2(4) == 16 && Pow2(5) == 32;
      assert Debt(3) == 3.0 * 48.0 - 5.6;
    }
  }

  /** Every delay lies within 20% of the capped exponential, whatever the
      random number, and one is computed exactly for attempts 0 to 1023. */
  lemma DelayBounds(attempt: nat, r: real)
    requires 0.0 <= r < 1.0
    ensures ComputeBackoff(attempt, r).Delay? <==> attempt < FLOAT_EXPONENT_LIMIT
    ensures ComputeBackoff(attempt, r).Delay? ==>
              MinDelay(attempt) <= ComputeBackoff(attempt, r).seconds <= 1.2 * Nominal(attempt)
  {
    var raw := Nominal(attempt);
    assert raw >= 0.0;
    JitterBounds(raw, r);
  }

  lemma JitterBounds(raw: real, r: real)
    requires raw >= 0.0 && 0.0 <= r < 1.0
    ensures 0.8 * raw <= WithJitter(raw, r) <= 1.2 * raw
  {
    Scale(raw * JITTER, 2.0 * r - 1.0);
  }

  lemma Scale(x: real, u: real)
    requires x >= 0.0 && -1.0 <= u <= 1.0
    ensures -x <= Product(x, u) <= x
  {
    assert Product(x, u) == x * u;
    assert x * u <= x * 1.0;
    assert x * -1.0 <= x * u;
  }

  /** The delay before jitter, in seconds. */
  function Seconds(attempt: nat): real {
    match attempt
    case 0 => 1.0
    case 1 => 2.0
    case 2 => 4.0
    case 3 => 8.0
    case 4 => 16.0
    case 5 => 32.0
    case _ => 60.0
  }

  lemma NominalInSeconds(attempt: nat)
    ensures Nominal(attempt) == Seconds(attempt)
  {
    if attempt >= 6 {
      Pow2Large(attempt);
    } else {
      assert Pow2(1) == 2 && Pow2(2) == 4 && Pow2(3) == 8 && Pow2(4) == 16 && Pow2(5) == 32;
    }
  }

  /** The delay itself: from 80% to 120% of these seconds, evenly in the random
      number. */
  lemma DelayIsExact(attempt: nat, r: real)
    requires attempt < 1024 && 0.0 <= r < 1.0
    ensures ComputeBackoff(attempt, r) == Delay(Seconds(attempt) * (0.8 + 0.4 * r))
  {
    var raw := Nominal(attempt);
    NominalInSeconds(attempt);
    assert raw >= 0.0;
    JitterBounds(raw, r);
    Distributes(raw, r);
  }

  lemma Distributes(raw: real, r: real)
    ensures raw + Product(raw * JITTER, 2.0 * r - 1.0) == raw * (0.8 + 0.4 * r)
  {
    var x := raw * r;
    assert Product(raw * 0.2, 2.0 * r - 1.0) == 0.4 * x - 0.2 * raw;
    assert raw * (0.8 + 0.4 * r) == 0.8 * raw + 0.4 * x;
  }
}
