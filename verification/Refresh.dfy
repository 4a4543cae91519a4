/** Frame times on the grid of a display's rational refresh rate. */
module Refresh {
  const BILLION: nat := 1_000_000_000
  const U32_BOUND: nat := 0x1_0000_0000
  const U64_BOUND: nat := 0x1_0000_0000_0000_0000
  const U128_MAX: nat := U64_BOUND * U64_BOUND - 1

  /** So many cycles in so many seconds. */
  datatype Rate = Rate(numerator: nat, denominator: nat)

  ghost predicate Valid(r: Rate) {
    0 < r.numerator < U32_BOUND && 0 < r.denominator < U32_BOUND
  }

  datatype Duration = Duration(seconds: nat, nanos: nat)

  const MAX_DURATION: Duration := Duration(U64_BOUND - 1, BILLION - 1)

  ghost predicate ValidDuration(d: Duration) {
    d.seconds < U64_BOUND && d.nanos < BILLION
  }

  function AsNanos(d: Duration): nat {
    d.seconds * BILLION + d.nanos
  }

  function FromNanos(nanos: nat): Duration {
    if nanos / BILLION > U64_BOUND - 1 then MAX_DURATION else Duration(nanos / BILLION, nanos % BILLION)
  }

  function SaturatingMul(a: nat, b: nat): nat {
    if a * b > U128_MAX then U128_MAX else a * b
  }

  function DivCeil(a: nat, b: nat): nat
    requires b > 0
  {
    if a % b == 0 then a / b else a / b + 1
  }

  function Period(r: Rate): nat {
    r.denominator * BILLION
  }

  /** The first grid point after a moment, computed from the rational itself in saturating 128-bit arithmetic. */
  function NextAfter(r: Rate, elapsed: Duration): Duration
    requires Valid(r)
  {
    PeriodPositive(r);
    FromNanos(NextNanos(AsNanos(elapsed), r.numerator, Period(r)))
  }

  function NextNanos(nanos: nat, frequency: nat, period: nat): nat
    requires frequency > 0 && period > 0
  {
    var index := SaturatingMul(nanos, frequency) / period + 1;
    DivCeil(SaturatingMul(index, period), frequency)
  }

  /** The index of the first grid point after a moment. */
  function Index(nanos: nat, frequency: nat, period: nat): nat
    requires period > 0
  {
    nanos * frequency / period + 1
  }

  /** The `k`-th grid point, in nanoseconds and rounded up. */
  function GridPoint(r: Rate, k: nat): nat
    requires Valid(r)
  {
    DivCeil(k * Period(r), r.numerator)
  }

  // ---------- Arithmetic ----------

  lemma PeriodPositive(r: Rate)
    requires Valid(r)
    ensures BILLION <= Period(r) < U32_BOUND * BILLION
  {
  }

  /** A rounded-up quotient is the least number that is large enough. */
  lemma DivCeilLeast(a: nat, b: nat, n: nat)
    requires b > 0
    ensures DivCeil(a, b) <= n <==> a <= n * b
  {
    var q, m := a / b, a % b;
    assert a == q * b + m;
    if n <= q - 1 {
      assert n * b <= (q - 1) * b == q * b - b;
    } else if n == q {
    } else {
      assert n * b >= (q + 1) * b == q * b + b;
    }
  }

  lemma DivLeast(a: nat, b: nat, n: nat)
    requires b > 0
    ensures a / b < n <==> a < n * b
  {
    var q := a / b;
    assert a == q * b + a % b;
    if n <= q {
      assert n * b <= q * b;
    } else {
      assert n * b >= (q + 1) * b == q * b + b;
    }
  }

  lemma Products(a: nat, b: nat, c: nat, d: nat)
    requires a <= c && b <= d
    ensures a * b <= c * d
  {
    assert a * b <= c * b <= c * d;
  }

  lemma ProductsBelow(nanos: nat, f: nat)
    requires nanos < U64_BOUND * BILLION && f < U32_BOUND
    ensures nanos * f <= U64_BOUND * BILLION * U32_BOUND
  {
    Products(nanos, f, U64_BOUND * BILLION, U32_BOUND);
  }

  lemma IndexBelow(product: nat, p: nat)
    requires product <= U64_BOUND * BILLION * U32_BOUND && 0 < p < U32_BOUND * BILLION
    ensures (product / p + 1) * p <= U128_MAX
  {
    var q := product / p;
    assert product == q * p + product % p;
    assert (q + 1) * p == q * p + p;
  }

  lemma Unsaturated(a: nat, b: nat)
    requires a * b <= U128_MAX
    ensures SaturatingMul(a, b) == a * b
  {
  }

  /** The 128-bit products never saturate. */
  lemma NothingSaturates(nanos: nat, f: nat, p: nat)
    requires nanos < U64_BOUND * BILLION && f < U32_BOUND && 0 < p < U32_BOUND * BILLION
    ensures SaturatingMul(nanos, f) == nanos * f
    ensures SaturatingMul(Index(nanos, f, p), p) == Index(nanos, f, p) * p
  {
    ProductsBelow(nanos, f);
    hide SaturatingMul;
    assert nanos * f <= U128_MAX;
    Unsaturated(nanos, f);
    var product := nanos * f;
    IndexBelow(product, p);
    Unsaturated(product / p + 1, p);
  }

  // ---------- The next grid point ----------

  /** The nanoseconds of the next grid point before they are clamped. */
  function Unclamped(r: Rate, nanos: nat): nat
    requires Valid(r)
  {
    PeriodPositive(r);
    GridPoint(r, Index(nanos, r.numerator, Period(r)))
  }

  lemma NextAfterClamps(r: Rate, elapsed: Duration)
    requires Valid(r) && ValidDuration(elapsed)
    ensures NextAfter(r, elapsed) == FromNanos(Unclamped(r, AsNanos(elapsed)))
  {
    PeriodPositive(r);
    assert AsNanos(elapsed) < U64_BOUND * BILLION;
    hide AsNanos, Period, SaturatingMul, FromNanos, DivCeil;
    NothingSaturates(AsNanos(elapsed), r.numerator, Period(r));
  }

  /** A grid point lies after a moment exactly when its index does. */
  lemma AfterExact(r: Rate, nanos: nat, k: nat)
    requires Valid(r)
    ensures Period(r) > 0 && (GridPoint(r, k) > nanos <==> k >= Index(nanos, r.numerator, Period(r)))
  {
    PeriodPositive(r);
    DivCeilLeast(k * Period(r), r.numerator, nanos);
    DivLeast(nanos * r.numerator, Period(r), k);
  }

  lemma GridGrows(r: Rate, k: nat, l: nat)
    requires Valid(r) && k <= l
    ensures GridPoint(r, k) <= GridPoint(r, l)
  {
    var p, f := Period(r), r.numerator;
    Products(k, p, l, p);
    DivCeilLeast(l * p, f, GridPoint(r, l));
    DivCeilLeast(k * p, f, GridPoint(r, l));
  }

  /** The unclamped result is the smallest grid point strictly after the moment. */
  lemma UnclampedLeast(r: Rate, nanos: nat, k: nat)
    requires Valid(r)
    ensures Unclamped(r, nanos) > nanos
    ensures GridPoint(r, k) > nanos ==> Unclamped(r, nanos) <= GridPoint(r, k)
  {
    PeriodPositive(r);
    var index := Index(nanos, r.numerator, Period(r));
    AfterExact(r, nanos, index);
    AfterExact(r, nanos, k);
    if k >= index {
      GridGrows(r, index, k);
    }
  }

  lemma NanosExact(nanos: nat)
    ensures nanos < U64_BOUND * BILLION ==> ValidDuration(FromNanos(nanos)) && AsNanos(FromNanos(nanos)) == nanos
    ensures nanos >= U64_BOUND * BILLION ==> FromNanos(nanos) == MAX_DURATION
    ensures ValidDuration(FromNanos(nanos)) && AsNanos(FromNanos(nanos)) <= nanos
  {
    assert nanos == nanos / BILLION * BILLION + nanos % BILLION;
  }

  /**
    * The next frame is the smallest grid point strictly after now, unless that is beyond the longest
    * duration, which is then given instead.
    */
  lemma NextAfterExact(r: Rate, elapsed: Duration, k: nat)
    requires Valid(r) && ValidDuration(elapsed)
    ensures var next := NextAfter(r, elapsed);
      && ValidDuration(next)
      && (if Unclamped(r, AsNanos(elapsed)) < U64_BOUND * BILLION then
            && AsNanos(next) > AsNanos(elapsed)
            && (GridPoint(r, k) > AsNanos(elapsed) ==> AsNanos(next) <= GridPoint(r, k))
            && AsNanos(next) == Unclamped(r, AsNanos(elapsed))
          else next == MAX_DURATION)
  {
    NextAfterClamps(r, elapsed);
    UnclampedLeast(r, AsNanos(elapsed), k);
    NanosExact(Unclamped(r, AsNanos(elapsed)));
    hide Unclamped, GridPoint, NextAfter, FromNanos;
  }

  function Nanos(d: Duration): nat {
    d.seconds * 1_000_000_000 + d.nanos
  }

  /**
    * In plain numbers: with so many cycles in so many seconds, the next frame is some cycle's time rounded
    * up to a nanosecond, later than now, and no cycle that ends after now is rounded up to an earlier one.
    */
  lemma NextOnTime(r: Rate, elapsed: Duration, k: nat) returns (index: nat)
    requires Valid(r) && ValidDuration(elapsed)
    ensures var now, next, cycle := Nanos(elapsed), NextAfter(r, elapsed), r.denominator * 1_000_000_000;
      || next == Duration(0xFFFF_FFFF_FFFF_FFFF, 999_999_999)
      || (&& Nanos(next) > now
          && index * cycle <= Nanos(next) * r.numerator < index * cycle + r.numerator
          && (k * cycle > now * r.numerator ==> Nanos(next) * r.numerator < k * cycle + r.numerator))
  {
    PeriodPositive(r);
    index := Index(AsNanos(elapsed), r.numerator, Period(r));
    PlainNumbers(r, elapsed, k);
    PlainNumbers(r, NextAfter(r, elapsed), index);
    NextAfterExact(r, elapsed, k);
    UnclampedIs(r, AsNanos(elapsed));
    hide *;
    if NextAfter(r, elapsed) != Duration(0xFFFF_FFFF_FFFF_FFFF, 999_999_999) {
      LeastCycle(Nanos(elapsed), Nanos(NextAfter(r, elapsed)), r.denominator * 1_000_000_000, r.numerator, index, k);
    }
  }

  lemma PlainNumbers(r: Rate, d: Duration, k: nat)
    requires Valid(r)
    ensures Nanos(d) == AsNanos(d) && MAX_DURATION == Duration(0xFFFF_FFFF_FFFF_FFFF, 999_999_999)
    ensures r.denominator * 1_000_000_000 == Period(r) && r.numerator > 0
    ensures GridPoint(r, k) == DivCeil(k * (r.denominator * 1_000_000_000), r.numerator)
  {
    hide DivCeil;
  }

  lemma UnclampedIs(r: Rate, nanos: nat)
    requires Valid(r)
    ensures Period(r) > 0 && Unclamped(r, nanos) == GridPoint(r, Index(nanos, r.numerator, Period(r)))
  {
    PeriodPositive(r);
  }

  lemma LeastCycle(now: nat, next: nat, cycle: nat, f: nat, index: nat, k: nat)
    requires f > 0 && next > now && next == DivCeil(index * cycle, f)
    requires DivCeil(k * cycle, f) > now ==> next <= DivCeil(k * cycle, f)
    ensures index * cycle <= next * f < index * cycle + f
    ensures k * cycle > now * f ==> next * f < k * cycle + f
  {
    hide DivCeil;
    Rounded(index * cycle, f);
    Rounded(k * cycle, f);
    if k * cycle > now * f {
      DivCeilLeast(k * cycle, f, now);
      Products(next, f, DivCeil(k * cycle, f), f);
    }
  }

  // ---------- Frame after frame ----------

  /** The time of frame `n` when every frame asks for the next one. */
  function Frames(r: Rate, n: nat): Duration
    requires Valid(r)
  {
    if n == 0 then Duration(0, 0) else NextAfter(r, Frames(r, n - 1))
  }

  lemma CeilApart(a: nat, p: nat, f: nat)
    requires 0 < f <= p
    ensures DivCeil(a, f) < DivCeil(a + p, f)
  {
    var g := DivCeil(a + p, f);
    DivCeilLeast(a + p, f, g);
    if g > 0 {
      assert g * f == (g - 1) * f + f;
      DivCeilLeast(a, f, g - 1);
    }
  }

  /** At no more than one cycle a nanosecond the grid points are all different. */
  lemma GridApart(r: Rate, k: nat)
    requires Valid(r) && r.numerator <= Period(r)
    ensures GridPoint(r, k) < GridPoint(r, k + 1)
  {
    var p := Period(r);
    assert (k + 1) * p == k * p + p;
    CeilApart(k * p, p, r.numerator);
  }

  /** Asking at a grid point gives the one after it. */
  lemma NextOnGrid(r: Rate, k: nat)
    requires Valid(r) && GridPoint(r, k) < GridPoint(r, k + 1)
    ensures Unclamped(r, GridPoint(r, k)) == GridPoint(r, k + 1)
  {
    PeriodPositive(r);
    var nanos := GridPoint(r, k);
    var index := Index(nanos, r.numerator, Period(r));
    AfterExact(r, nanos, k + 1);
    AfterExact(r, nanos, k);
    assert index == k + 1;
  }

  /**
    * Frame after frame visits every grid point once: frame `n` is within a nanosecond of its exact
    * time, however large `n` is.
    */
  lemma NoDrift(r: Rate, n: nat)
    requires Valid(r) && r.numerator <= Period(r) && GridPoint(r, n) < U64_BOUND * BILLION
    ensures ValidDuration(Frames(r, n)) && AsNanos(Frames(r, n)) == GridPoint(r, n)
    ensures n * (r.denominator * 1_000_000_000) <= Nanos(Frames(r, n)) * r.numerator
      < n * (r.denominator * 1_000_000_000) + r.numerator
  {
    hide *;
    OnGrid(r, n);
    PlainNumbers(r, Frames(r, n), n);
    Rounded(n * (r.denominator * 1_000_000_000), r.numerator);
  }

  lemma {:induction false} OnGrid(r: Rate, n: nat)
    requires Valid(r) && r.numerator <= Period(r) && GridPoint(r, n) < U64_BOUND * BILLION
    ensures ValidDuration(Frames(r, n)) && AsNanos(Frames(r, n)) == GridPoint(r, n)
  {
    hide NextAfter, Unclamped;
    if n > 0 {
      GridGrows(r, n - 1, n);
      OnGrid(r, n - 1);
      GridApart(r, n - 1);
      NextOnGrid(r, n - 1);
      NextAfterExact(r, Frames(r, n - 1), n);
    }
  }

  lemma Rounded(a: nat, b: nat)
    requires b > 0
    ensures a <= DivCeil(a, b) * b < a + b
  {
    DivCeilLeast(a, b, DivCeil(a, b));
    var q := a / b;
    assert a == q * b + a % b;
    assert (q + 1) * b == q * b + b;
  }

  lemma {:induction false} StepsAddUp(r: Rate, n: nat)
    requires Valid(r) && forall k :: 0 <= k < n ==> GridPoint(r, k) < GridPoint(r, k + 1)
    ensures GridPoint(r, n) >= n
  {
    if n > 0 {
      StepsAddUp(r, n - 1);
    }
  }

  ghost predicate VisitsEveryPoint(r: Rate)
    requires Valid(r)
  {
    forall k: nat :: Unclamped(r, GridPoint(r, k)) == GridPoint(r, k + 1)
  }

  /**
    * Every grid point is visited exactly when the rate is at most one cycle a nanosecond; above it
    * some share a nanosecond.
    */
  lemma EveryPointExactlyBelowGigahertz(r: Rate)
    requires Valid(r)
    ensures r.numerator <= Period(r) <==> VisitsEveryPoint(r)
  {
    hide Unclamped, GridPoint;
    if r.numerator <= Period(r) {
      forall k: nat ensures Unclamped(r, GridPoint(r, k)) == GridPoint(r, k + 1) {
        GridApart(r, k);
        NextOnGrid(r, k);
      }
    } else if VisitsEveryPoint(r) {
      forall k: nat | k < r.numerator ensures GridPoint(r, k) < GridPoint(r, k + 1) {
        UnclampedLeast(r, GridPoint(r, k), 0);
      }
      StepsAddUp(r, r.numerator);
      WholeSecondsOnGrid(r);
      assert false;
    }
  }

  lemma WholeSecondsOnGrid(r: Rate)
    requires Valid(r)
    ensures GridPoint(r, r.numerator) == Period(r)
  {
    var p, f := Period(r), r.numerator;
    DivCeilLeast(f * p, f, p);
    if p > 0 {
      DivCeilLeast(f * p, f, p - 1);
      assert (p - 1) * f == p * f - f;
    }
  }
}
