/**
 * The retry schedule of src/zap.rs. `30000 * 1.5^n` is exact in the source's
 * f64 arithmetic for n <= 26, so truncation is the integer quotient below.
 */
module Backoff {

  const BASE_RETRY_DELAY_MS := 30_000
  const MAX_RETRY_DURATION_MS := 14 * 24 * 60 * 60 * 1000
  const MIN_RETRY_DELAY_MS := 45_000

  function Pow(b: nat, n: nat): nat {
    if n == 0 then 1 else b * Pow(b, n - 1)
  }

  lemma {:induction false} PowPositive(b: nat, n: nat)
    requires b > 0
    ensures Pow(b, n) > 0
  {
    if n > 0 { PowPositive(b, n - 1); }
  }

  function RetryDelay(n: nat): nat {
    PowPositive(2, n);
    BASE_RETRY_DELAY_MS * Pow(3, n) / Pow(2, n)
  }

  /** The least time the first `n` retries take together. */
  function TotalDelay(n: nat): nat {
    if n == 0 then 0 else TotalDelay(n - 1) + RetryDelay(n)
  }

  lemma QuotientBounds(a: nat, b: nat)
    requires b > 0
    ensures a - b < a / b * b <= a
  {
  }

  lemma DelayBounds(n: nat)
    ensures BASE_RETRY_DELAY_MS * Pow(3, n) - Pow(2, n) < Pow(2, n) * RetryDelay(n) <= BASE_RETRY_DELAY_MS * Pow(3, n)
  {
    PowPositive(2, n);
    QuotientBounds(BASE_RETRY_DELAY_MS * Pow(3, n), Pow(2, n));
  }

  lemma Distribute(p: int, a: int, b: int)
    ensures p * (a + b) == p * a + p * b
  {
  }

  lemma TotalStep(p: nat, q: nat, t: nat, d: nat, k: nat)
    requires 90_000 * (q - p) <= p * (t + k) && p * t <= 90_000 * (q - p)
    requires 90_000 * q - 2 * p < (2 * p) * d <= 90_000 * q
    ensures 90_000 * (3 * q - 2 * p) <= (2 * p) * (t + d + (k + 1))
    ensures (2 * p) * (t + d) <= 90_000 * (3 * q - 2 * p)
  {
    Distribute(2 * p, t + k, d + 1);
    Distribute(2 * p, d, 1);
    Distribute(2 * p, t, d);
    assert (2 * p) * (t + k) == 2 * (p * (t + k));
    assert (2 * p) * t == 2 * (p * t);
  }

  /** The geometric sum, up to one millisecond of truncation per retry. */
  lemma {:induction false} TotalBounds(n: nat)
    ensures 90_000 * (Pow(3, n) - Pow(2, n)) <= Pow(2, n) * (TotalDelay(n) + n)
    ensures Pow(2, n) * TotalDelay(n) <= 90_000 * (Pow(3, n) - Pow(2, n))
  {
    if n > 0 {
      TotalBounds(n - 1);
      DelayBounds(n);
      TotalStep(Pow(2, n - 1), Pow(3, n - 1), TotalDelay(n - 1), RetryDelay(n), n - 1);
    }
  }

  lemma {:induction false} TotalMonotone(m: nat, n: nat)
    requires m <= n
    ensures TotalDelay(m) <= TotalDelay(n)
    decreases n - m
  {
    if m < n { TotalMonotone(m, n - 1); }
  }

  lemma MulAssoc(a: int, b: int, c: int)
    ensures a * (b * c) == (a * b) * c
  {
  }

  lemma {:induction false} PowAdd(b: nat, m: nat, n: nat)
    ensures Pow(b, m + n) == Pow(b, m) * Pow(b, n)
  {
    if m > 0 {
      PowAdd(b, m - 1, n);
      MulAssoc(b, Pow(b, m - 1), Pow(b, n));
    }
  }

  lemma PowersAt24()
    ensures Pow(3, 24) == 282429536481 && Pow(2, 24) == 16777216
    ensures Pow(3, 23) == 94143178827 && Pow(2, 23) == 8388608
  {
    assert Pow(3, 3) == 27 && Pow(2, 3) == 8 by { assert Pow(3, 2) == 9 && Pow(2, 2) == 4; }
    PowAdd(3, 3, 3);
    PowAdd(3, 6, 6);
    PowAdd(3, 12, 12);
    PowAdd(2, 3, 3);
    PowAdd(2, 6, 6);
    PowAdd(2, 12, 12);
  }

  /** The first 23 retries are exactly those whose delays fit into the 14-day cutoff. */
  lemma RetriesWithinCutoff(n: nat)
    ensures TotalDelay(n) <= MAX_RETRY_DURATION_MS <==> n <= 23
  {
    PowersAt24();
    TotalBounds(23);
    TotalBounds(24);
    if n <= 23 { TotalMonotone(n, 23); } else { TotalMonotone(24, n); }
  }

  lemma DelayAtLeast45s(n: nat)
    requires n >= 1
    ensures RetryDelay(n) >= MIN_RETRY_DELAY_MS
  {
    ThreeHalves(n);
    PowPositive(2, n);
    QuotientAtLeast(BASE_RETRY_DELAY_MS * Pow(3, n), Pow(2, n), MIN_RETRY_DELAY_MS);
  }

  lemma QuotientAtLeast(a: nat, b: nat, q: nat)
    requires b > 0 && q * b <= a
    ensures a / b >= q
  {
    QuotientBounds(a, b);
    Distribute(b, a / b, 1);
    CancelLess(q, a / b + 1, b);
  }

  lemma CancelLess(x: int, y: int, b: int)
    requires b > 0 && x * b < y * b
    ensures x < y
  {
  }

  lemma {:induction false} ThreeHalves(n: nat)
    requires n >= 1
    ensures 3 * Pow(2, n) <= 2 * Pow(3, n)
  {
    if n > 1 { ThreeHalves(n - 1); }
  }

  lemma TotalSmall(n: nat)
    requires n <= 24
    ensures TotalDelay(n) <= 1_520_000_000
    ensures n <= 23 ==> TotalDelay(n) <= 1_010_000_000
  {
    PowersAt24();
    TotalBounds(23);
    TotalBounds(24);
    TotalMonotone(n, 24);
    if n <= 23 { TotalMonotone(n, 23); }
  }

  /** Up to 24 retries the delay stays far below the i64 range. */
  lemma DelaySmall(n: nat)
    requires n <= 24
    ensures RetryDelay(n) <= 1_600_000_000
  {
    PowersAt24();
    TotalBounds(24);
    TotalMonotone(n, 24);
  }
}
