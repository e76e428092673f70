/** RestartPolicy: defaults, validation and the exponential backoff. Durations are 64-bit nanoseconds. A
    product of a delay and the factor is exact; converting it back to a duration truncates it, and gives an
    arbitrary number when it does not fit. */
module Restart {
  import opened Common

  const SECOND := 1_000_000_000
  const DEFAULT_INITIAL_DELAY := SECOND
  const DEFAULT_MAX_DELAY := 60 * SECOND
  const DEFAULT_FACTOR := 2.0
  const DEFAULT_RESET_AFTER := 60 * SECOND

  /** A float64 without its rounding. */
  datatype Float = Finite(value: real) | PosInf | NegInf | NaN {

    /** The comparison <, which NaN never meets. */
    predicate Below(bound: real) {
      NegInf? || (Finite? && value < bound)
    }
  }

  datatype Policy = Policy(maxAttempts: Int64, initialDelay: Int64, maxDelay: Int64, factor: Float, resetAfter: Int64)

  datatype PolicyError = NegativeField | FactorTooSmall | MaxBelowInitial

  function Normalized(p: Policy): Policy {
    Policy(
      p.maxAttempts,
      if p.initialDelay == 0 then DEFAULT_INITIAL_DELAY else p.initialDelay,
      if p.maxDelay == 0 then DEFAULT_MAX_DELAY else p.maxDelay,
      if p.factor == Finite(0.0) then Finite(DEFAULT_FACTOR) else p.factor,
      if p.resetAfter == 0 then DEFAULT_RESET_AFTER else p.resetAfter)
  }

  function Validate(p: Policy): Option<PolicyError> {
    if p.maxAttempts < 0 || p.initialDelay < 0 || p.maxDelay < 0 || p.factor.Below(0.0) || p.resetAfter < 0 then
      Some(NegativeField)
    else
      var n := Normalized(p);
      if n.factor.Below(1.0) then Some(FactorTooSmall)
      else if n.maxDelay < n.initialDelay then Some(MaxBelowInitial)
      else None
  }

  /** What AddService lets through: note that NaN and +Inf are not below 1. */
  predicate Accepted(p: Policy) {
    && 0 <= p.maxAttempts
    && 0 < p.initialDelay <= p.maxDelay
    && (p.factor.PosInf? || p.factor.NaN? || (p.factor.Finite? && 1.0 <= p.factor.value))
    && 0 < p.resetAfter
  }

  lemma ValidateIsExact(p: Policy)
    ensures Validate(p).None? <==> Accepted(Normalized(p))
    ensures Validate(p).None? ==> Normalized(Normalized(p)) == Normalized(p)
  {
  }

  /** The defaults fill the zero fields and no others. */
  lemma DefaultsFillZeros(p: Policy)
    ensures var n := Normalized(p);
      && n.maxAttempts == p.maxAttempts
      && n.initialDelay == (if p.initialDelay != 0 then p.initialDelay else 1_000_000_000)
      && n.maxDelay == (if p.maxDelay != 0 then p.maxDelay else 60_000_000_000)
      && n.factor == (if p.factor != Finite(0.0) then p.factor else Finite(2.0))
      && n.resetAfter == (if p.resetAfter != 0 then p.resetAfter else 60_000_000_000)
  {
  }

  // One step of the backoff.

  const TWO_TO_63 := (MAX_INT + 1) as real

  function Scaled(p: Policy, x: real): real
    requires p.factor.Finite?
  {
    x * p.factor.value
  }

  /** The product of this delay and the factor is a duration. */
  predicate Fits(p: Policy, delay: int) {
    p.factor.Finite? && -TWO_TO_63 <= Scaled(p, delay as real) < TWO_TO_63
  }

  function Truncate(x: real): int {
    if x < 0.0 then -((-x).Floor) else x.Floor
  }

  /** The delay after one more consecutive restart. `wild` is what the machine makes of a product that does
      not fit. */
  function NextDelay(p: Policy, delay: int, wild: Int64): int {
    var d := if Fits(p, delay) then Truncate(Scaled(p, delay as real)) else wild;
    if d > p.maxDelay then p.maxDelay else d
  }

  /** The delay after |wild| consecutive restarts. */
  function Delay(p: Policy, wild: seq<Int64>): int {
    if wild == [] then p.initialDelay else NextDelay(p, Delay(p, wild[..|wild| - 1]), wild[|wild| - 1])
  }

  /** Some machine's delay after k consecutive restarts. */
  ghost predicate DelayAfter(p: Policy, k: nat, delay: int) {
    exists wild: seq<Int64> :: |wild| == k && Delay(p, wild) == delay
  }

  lemma DelayAfterNone(p: Policy)
    ensures DelayAfter(p, 0, p.initialDelay)
  {
    assert Delay(p, []) == p.initialDelay;
  }

  lemma DelayAfterOneMore(p: Policy, k: nat, delay: int, w: Int64)
    requires DelayAfter(p, k, delay)
    ensures DelayAfter(p, k + 1, NextDelay(p, delay, w))
  {
    var wild: seq<Int64> :| |wild| == k && Delay(p, wild) == delay;
    assert (wild + [w])[..k] == wild;
    assert Delay(p, wild + [w]) == NextDelay(p, delay, w);
  }

  /** The next delay in unbounded arithmetic and before the cap. */
  function Product(p: Policy, delay: int): int
    requires p.factor.Finite?
  {
    Scaled(p, delay as real).Floor
  }

  lemma ProductGrows(p: Policy, d: int)
    requires Accepted(p) && p.factor.Finite? && 0 <= d
    ensures d <= Product(p, d) && Scaled(p, d as real) >= d as real
  {
    ScaleUp(d as real, d as real, p.factor.value);
  }

  /** The delay after k consecutive restarts in unbounded arithmetic. */
  function Backoff(p: Policy, k: nat): int
    requires p.factor.Finite?
  {
    if k == 0 then p.initialDelay else Min(p.maxDelay, Product(p, Backoff(p, k - 1)))
  }

  function Min(a: int, b: int): int {
    if a < b then a else b
  }

  lemma ScaleUp(x: real, y: real, f: real)
    requires 0.0 <= x <= y && 0.0 <= f
    ensures x * f <= y * f
    ensures 1.0 <= f ==> x <= x * f
  {
    assert (y - x) * f >= 0.0;
    if 1.0 <= f {
      assert x * (f - 1.0) >= 0.0;
    }
  }

  /** The delay stays between its bounds, never shrinks, and stays at the cap once there. */
  lemma {:induction false} BackoffBounded(p: Policy, k: nat)
    requires Accepted(p) && p.factor.Finite?
    ensures p.initialDelay <= Backoff(p, k) <= p.maxDelay
    ensures Backoff(p, k) <= Backoff(p, k + 1)
    ensures Backoff(p, k) == p.maxDelay ==> Backoff(p, k + 1) == p.maxDelay
  {
    if k > 0 {
      BackoffBounded(p, k - 1);
    }
    ProductGrows(p, Backoff(p, k));
  }

  lemma {:induction false} BackoffMonotone(p: Policy, j: nat, k: nat)
    requires Accepted(p) && p.factor.Finite? && j <= k
    ensures Backoff(p, j) <= Backoff(p, k)
    decreases k
  {
    if j < k {
      BackoffMonotone(p, j, k - 1);
      BackoffBounded(p, k - 1);
    }
  }

  // When every product fits.

  /** What a caller can check of an accepted policy before registering it: the largest product fits, or the
      delay never moves. */
  predicate InRange(p: Policy) {
    p.factor.Finite? && (Scaled(p, p.maxDelay as real) < TWO_TO_63 || Product(p, p.initialDelay) <= p.initialDelay)
  }

  lemma FitsBelow(p: Policy, d: int, e: int)
    requires p.factor.Finite? && 0.0 <= p.factor.value && 0 <= d <= e && Scaled(p, e as real) < TWO_TO_63
    ensures Fits(p, d)
  {
    ScaleUp(d as real, e as real, p.factor.value);
    ScaleUp(0.0, d as real, p.factor.value);
  }

  /** A delay that the first product does not move never moves. */
  lemma {:induction false} BackoffStays(p: Policy, k: nat)
    requires Accepted(p) && p.factor.Finite? && Product(p, p.initialDelay) <= p.initialDelay
    ensures Backoff(p, k) == p.initialDelay
  {
    if k > 0 {
      hide Product;
      BackoffStays(p, k - 1);
      ProductGrows(p, p.initialDelay);
    }
  }

  /** Otherwise each restart adds at least one nanosecond until the cap is reached. */
  lemma {:induction false} BackoffClimbs(p: Policy, k: nat)
    requires Accepted(p) && p.factor.Finite? && Product(p, p.initialDelay) > p.initialDelay
    ensures Backoff(p, k) >= Min(p.maxDelay, p.initialDelay + k)
  {
    if k > 0 {
      hide Product;
      BackoffClimbs(p, k - 1);
      BackoffBounded(p, k - 1);
      GrowsByOne(p, p.initialDelay, Backoff(p, k - 1));
    }
  }

  lemma GrowsByOne(p: Policy, d: int, e: int)
    requires Accepted(p) && p.factor.Finite? && 0 < d <= e && Product(p, d) > d
    ensures Product(p, e) > e
  {
    var more := p.factor.value - 1.0;
    Surplus(d as real, p.factor.value);
    Surplus(e as real, p.factor.value);
    assert Scaled(p, d as real) >= (d + 1) as real;
    ScaleUp(d as real, e as real, more);
    assert Scaled(p, e as real) >= (e + 1) as real;
  }

  lemma Surplus(x: real, f: real)
    ensures x * f == x + x * (f - 1.0)
  {
  }

  lemma StaysFits(p: Policy)
    requires Accepted(p) && p.factor.Finite? && Product(p, p.initialDelay) <= p.initialDelay
    ensures Fits(p, p.initialDelay)
  {
    ProductGrows(p, p.initialDelay);
    assert Scaled(p, p.initialDelay as real) < (p.initialDelay + 1) as real <= TWO_TO_63;
  }

  /** Some product does not fit exactly when the policy fails the check above. */
  lemma InRangeIff(p: Policy)
    requires Accepted(p) && p.factor.Finite?
    ensures InRange(p) <==> forall k: nat :: Fits(p, Backoff(p, k))
  {
    if InRange(p) {
      forall k: nat
        ensures Fits(p, Backoff(p, k))
      {
        BackoffFits(p, k);
      }
    } else {
      var k := p.maxDelay - p.initialDelay;
      BackoffClimbs(p, k);
      BackoffBounded(p, k);
      assert !Fits(p, Backoff(p, k));
    }
  }

  lemma BackoffFits(p: Policy, k: nat)
    requires Accepted(p) && InRange(p)
    ensures Fits(p, Backoff(p, k))
  {
    BackoffBounded(p, k);
    if Scaled(p, p.maxDelay as real) < TWO_TO_63 {
      FitsBelow(p, Backoff(p, k), p.maxDelay);
    } else {
      BackoffStays(p, k);
      StaysFits(p);
    }
  }

  lemma NextIsBackoff(p: Policy, k: nat, wild: Int64)
    requires Accepted(p) && p.factor.Finite? && Fits(p, Backoff(p, k))
    ensures NextDelay(p, Backoff(p, k), wild) == Backoff(p, k + 1)
  {
    BackoffBounded(p, k);
    ProductGrows(p, Backoff(p, k));
  }

  /** The first n products of the backoff fit. */
  ghost predicate FitsUpTo(p: Policy, n: nat) {
    n == 0 || (p.factor.Finite? && forall j: nat :: j < n ==> Fits(p, Backoff(p, j)))
  }

  /** As long as the products fit, the delays are those of unbounded arithmetic. */
  lemma {:induction false} DelayIsBackoff(p: Policy, wild: seq<Int64>)
    requires Accepted(p) && FitsUpTo(p, |wild|)
    ensures p.factor.Finite? ==> Delay(p, wild) == Backoff(p, |wild|)
    ensures p.initialDelay <= Delay(p, wild) <= p.maxDelay
    decreases |wild|
  {
    if wild != [] {
      DelayIsBackoff(p, wild[..|wild| - 1]);
      NextIsBackoff(p, |wild| - 1, wild[|wild| - 1]);
      BackoffBounded(p, |wild|);
    }
  }

  function Repeat(w: Int64, n: nat): seq<Int64> {
    seq(n, _ => w)
  }

  /** Past the first product that does not fit, a machine that then gives a negative number has a negative delay. */
  lemma {:induction false} FirstEscape(p: Policy, n: nat, junk: Int64) returns (k: nat)
    requires Accepted(p) && !FitsUpTo(p, n) && junk < 0
    ensures 0 < k <= n && Delay(p, Repeat(junk, k)) < 0
  {
    if n == 1 || !FitsUpTo(p, n - 1) {
      if n == 1 {
        k := 1;
        assert Repeat(junk, 1)[..0] == [];
      } else {
        k := FirstEscape(p, n - 1, junk);
      }
    } else {
      k := n;
      DelayIsBackoff(p, Repeat(junk, n - 1));
      assert Repeat(junk, n)[..n - 1] == Repeat(junk, n - 1);
    }
  }

  predicate InBounds(p: Policy, wild: seq<Int64>) {
    p.initialDelay <= Delay(p, wild) <= p.maxDelay
  }

  /** An accepted policy keeps its delays within its bounds, on every machine and for ever, exactly when it is
      in range. The cap holds in any case. */
  lemma BoundsIff(p: Policy)
    requires Accepted(p)
    ensures InRange(p) <==> forall wild: seq<Int64> :: InBounds(p, wild)
    ensures forall wild: seq<Int64> :: Delay(p, wild) <= p.maxDelay
  {
    if InRange(p) {
      forall wild: seq<Int64>
        ensures InBounds(p, wild)
      {
        InRangeFits(p, |wild|);
        DelayIsBackoff(p, wild);
      }
    } else {
      var n := OutOfRange(p);
      var k := FirstEscape(p, n, -1);
      assert !InBounds(p, Repeat(-1, k));
    }
  }

  lemma InRangeFits(p: Policy, n: nat)
    requires Accepted(p) && InRange(p)
    ensures FitsUpTo(p, n)
  {
    InRangeIff(p);
  }

  lemma OutOfRange(p: Policy) returns (n: nat)
    requires Accepted(p) && !InRange(p)
    ensures !FitsUpTo(p, n)
  {
    if p.factor.Finite? {
      InRangeIff(p);
      var k: nat :| !Fits(p, Backoff(p, k));
      n := k + 1;
    } else {
      n := 1;
    }
  }

  /** Every product that supervise can come to fits: with unlimited attempts the policy is in range, and with m
      attempts the first m - 1 products fit. */
  ghost predicate Safe(p: Policy) {
    if p.maxAttempts == 0 then InRange(p) else 0 < p.maxAttempts && FitsUpTo(p, p.maxAttempts - 1)
  }

  lemma InRangeIsSafe(p: Policy)
    requires Accepted(p) && InRange(p)
    ensures Safe(p)
  {
    if 0 < p.maxAttempts {
      InRangeFits(p, p.maxAttempts - 1);
    }
  }

  lemma SafeFits(p: Policy, n: nat)
    requires Accepted(p) && Safe(p) && (0 < p.maxAttempts ==> n < p.maxAttempts)
    ensures FitsUpTo(p, n)
  {
    if p.maxAttempts == 0 {
      InRangeFits(p, n);
    }
  }

  /** `RestartPolicy{Factor: 1e10}`: accepted with the default delays, its first product is beyond 2^63, and
      on a machine that then gives the least integer the second restart does not wait at all. */
  lemma OverflowWitness()
    ensures var p := Policy(0, 0, 0, Finite(1.0e10), 0);
      && Validate(p).None? && Accepted(Normalized(p)) && !InRange(Normalized(p))
      && Scaled(Normalized(p), DEFAULT_INITIAL_DELAY as real) >= TWO_TO_63
      && Delay(Normalized(p), [-MAX_INT - 1]) == -MAX_INT - 1
  {
    var n := Normalized(Policy(0, 0, 0, Finite(1.0e10), 0));
    assert Scaled(n, DEFAULT_INITIAL_DELAY as real) == 1.0e19;
    assert Delay(n, [-MAX_INT - 1][..0]) == n.initialDelay;
  }

  // The geometric sequence.

  /** InitialDelay * Factor^k. */
  function Geometric(p: Policy, k: nat): real
    requires p.factor.Finite?
  {
    if k == 0 then p.initialDelay as real else Scaled(p, Geometric(p, k - 1))
  }

  /** Truncation only loses: the delay never exceeds the untruncated geometric sequence. */
  lemma {:induction false} BackoffBelowGeometric(p: Policy, k: nat)
    requires Accepted(p) && p.factor.Finite?
    ensures Backoff(p, k) as real <= Geometric(p, k)
  {
    if k > 0 {
      hide Scaled;
      BackoffBelowGeometric(p, k - 1);
      BackoffBounded(p, k - 1);
      ProductBelow(p, Backoff(p, k - 1), Geometric(p, k - 1));
    }
  }

  lemma ProductBelow(p: Policy, d: int, g: real)
    requires Accepted(p) && p.factor.Finite? && 0 <= d && d as real <= g
    ensures Product(p, d) as real <= Scaled(p, g)
  {
    ScaleUp(d as real, g, p.factor.value);
  }

  function IntGeometric(initial: int, f: int, k: nat): int {
    if k == 0 then initial else IntGeometric(initial, f, k - 1) * f
  }

  /** For a whole factor the delay is exactly the capped geometric sequence. */
  lemma {:induction false} BackoffWholeFactor(p: Policy, f: int, k: nat)
    requires Accepted(p) && p.factor == Finite(f as real)
    ensures Backoff(p, k) == Min(p.maxDelay, IntGeometric(p.initialDelay, f, k))
  {
    if k > 0 {
      BackoffWholeFactor(p, f, k - 1);
      BackoffBounded(p, k - 1);
      CappedProduct(p, f, IntGeometric(p.initialDelay, f, k - 1));
    }
  }

  lemma CappedProduct(p: Policy, f: int, g: int)
    requires Accepted(p) && p.factor == Finite(f as real)
    ensures Min(p.maxDelay, Product(p, Min(p.maxDelay, g))) == Min(p.maxDelay, g * f)
  {
    WholeProduct(Min(p.maxDelay, g), f);
    WholeGrows(p.maxDelay, p.maxDelay, f);
    if g > p.maxDelay {
      WholeGrows(p.maxDelay, g, f);
    }
  }

  lemma WholeGrows(c: int, d: int, f: int)
    requires 0 <= c <= d && 1 <= f
    ensures c <= c * f <= d * f
  {
    assert c * (f - 1) >= 0;
    assert (d - c) * f >= 0;
  }

  lemma WholeProduct(d: int, f: int)
    ensures (d as real * f as real).Floor == d * f
  {
    assert d as real * f as real == (d * f) as real;
  }

  /** The product, less than one nanosecond lost, unless it exceeds the cap. */
  predicate OneRestartLater(p: Policy, delay: int, next: int) {
    p.factor.Finite? &&
    var product := delay as real * p.factor.value;
    if product >= (p.maxDelay + 1) as real then next == p.maxDelay else next as real <= product < (next + 1) as real
  }

  lemma NextIsProduct(p: Policy, wild: seq<Int64>, w: Int64)
    requires Accepted(p) && InRange(p)
    ensures OneRestartLater(p, Delay(p, wild), Delay(p, wild + [w]))
  {
    hide *;
    InRangeFits(p, |wild|);
    InRangeFits(p, |wild + [w]|);
    InRangeIsFinite(p);
    DelayIsBackoff(p, wild);
    DelayIsBackoff(p, wild + [w]);
    BackoffNext(p, |wild|);
    FloorOfProduct(p, Backoff(p, |wild|));
  }

  lemma InRangeIsFinite(p: Policy)
    requires InRange(p)
    ensures p.factor.Finite?
  {
  }

  lemma BackoffNext(p: Policy, k: nat)
    requires p.factor.Finite?
    ensures Backoff(p, k + 1) == Min(p.maxDelay, Product(p, Backoff(p, k)))
  {
  }

  lemma FloorOfProduct(p: Policy, d: int)
    requires p.factor.Finite?
    ensures OneRestartLater(p, d, Min(p.maxDelay, Product(p, d)))
  {
    var x := d as real * p.factor.value;
    assert Product(p, d) == x.Floor;
    assert x.Floor as real <= x < (x.Floor + 1) as real;
  }

  /** The backoff law, for the delays the machine computes. */
  lemma BackoffLaw(p: Policy, wild: seq<Int64>)
    requires Accepted(p) && InRange(p)
    ensures p.initialDelay <= Delay(p, wild) <= p.maxDelay
    ensures Delay(p, wild) as real <= Geometric(p, |wild|)
    ensures forall f: int :: p.factor == Finite(f as real) ==>
      Delay(p, wild) == Min(p.maxDelay, IntGeometric(p.initialDelay, f, |wild|))
    ensures forall w: Int64 :: OneRestartLater(p, Delay(p, wild), Delay(p, wild + [w]))
    ensures forall more: seq<Int64> :: Delay(p, wild) <= Delay(p, wild + more)
    ensures Delay(p, wild) == p.maxDelay ==> forall more: seq<Int64> :: Delay(p, wild + more) == p.maxDelay
  {
    var k := |wild|;
    InRangeFits(p, k);
    DelayIsBackoff(p, wild);
    BackoffBounded(p, k);
    BackoffBelowGeometric(p, k);
    forall f: int | p.factor == Finite(f as real)
      ensures Backoff(p, k) == Min(p.maxDelay, IntGeometric(p.initialDelay, f, k))
    {
      BackoffWholeFactor(p, f, k);
    }
    forall w: Int64
      ensures OneRestartLater(p, Delay(p, wild), Delay(p, wild + [w]))
    {
      NextIsProduct(p, wild, w);
    }
    forall more: seq<Int64>
      ensures Delay(p, wild) <= Delay(p, wild + more) <= p.maxDelay
    {
      InRangeFits(p, |wild + more|);
      DelayIsBackoff(p, wild + more);
      BackoffMonotone(p, k, |wild + more|);
      BackoffBounded(p, |wild + more|);
    }
  }
}
