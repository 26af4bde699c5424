/** Trace sampling at a rate: the 64-bit ids below rate times 2^64 are sampled
    (witchcraft/witchcraft.go:1366-1381). Floating point values are counted in units of 2^-1074, the smallest
    positive double, so that every value the code computes with is a whole number. */
module Sampling {

  // ---------------------------------------------------------------- powers of two

  /** x times 2^n. */
  function Scaled(x: int, n: nat): int
    decreases n
  {
    if n == 0 then x else Scaled(2 * x, n - 1)
  }

  function TwoTo(n: nat): int {
    Scaled(1, n)
  }

  /** x divided by 2^n, rounded down. */
  function Quotient(x: int, n: nat): int
    decreases n
  {
    if n == 0 then x else Quotient(x / 2, n - 1)
  }

  lemma {:induction false} ScaledSum(x: int, y: int, n: nat)
    ensures Scaled(x + y, n) == Scaled(x, n) + Scaled(y, n)
    decreases n
  {
    if n > 0 {
      ScaledSum(2 * x, 2 * y, n - 1);
    }
  }

  lemma {:induction false} ScaledMonotone(x: int, y: int, n: nat)
    ensures x <= y <==> Scaled(x, n) <= Scaled(y, n)
    decreases n
  {
    if n > 0 {
      ScaledMonotone(2 * x, 2 * y, n - 1);
    }
  }

  lemma {:induction false} ScaledZero(n: nat)
    ensures Scaled(0, n) == 0
    decreases n
  {
    if n > 0 {
      ScaledZero(n - 1);
    }
  }

  lemma {:induction false} ScaledTwice(x: int, a: nat, b: nat)
    ensures Scaled(Scaled(x, a), b) == Scaled(x, a + b)
    decreases a
  {
    if a > 0 {
      ScaledTwice(2 * x, a - 1, b);
    }
  }

  lemma {:induction false} ScaledIsTimes(x: int, y: int, n: nat)
    ensures Scaled(x * y, n) == x * Scaled(y, n)
    decreases n
  {
    if n > 0 {
      assert 2 * (x * y) == x * (2 * y);
      ScaledIsTimes(x, 2 * y, n - 1);
    }
  }

  lemma {:induction false} QuotientIsFloor(x: int, n: nat)
    ensures Scaled(Quotient(x, n), n) <= x < Scaled(Quotient(x, n) + 1, n)
    decreases n
  {
    if n > 0 {
      var q := Quotient(x, n);
      QuotientIsFloor(x / 2, n - 1);
      ScaledSum(q, q, n - 1);
      ScaledSum(q + 1, q + 1, n - 1);
    }
  }

  // ---------------------------------------------------------------- doubles

  const UNIT_BITS: nat := 1074
  const SIGNIFICAND_BITS: nat := 53
  const ID_BITS: nat := 64

  /** The value one, in units. */
  function One(): int {
    TwoTo(UNIT_BITS)
  }

  /** The finite binary64 values: a whole significand of at most 53 bits, scaled by a power of two. */
  ghost predicate IsDouble(x: int) {
    exists m: int, s: nat :: Represents(m, s, x)
  }

  ghost predicate Represents(m: int, s: nat, x: int) {
    -TwoTo(SIGNIFICAND_BITS) < m < TwoTo(SIGNIFICAND_BITS) && s <= 2045 && x == Scaled(m, s)
  }

  /** Below a power of two there is a gap without doubles. */
  lemma GapBelowPower(x: int, k: nat, gap: nat)
    requires IsDouble(x) && x < TwoTo(k) && k == gap + SIGNIFICAND_BITS
    ensures x <= TwoTo(k) - TwoTo(gap)
  {
    var m: int, s: nat :| Represents(m, s, x);
    if s >= gap {
      CoarseGap(m, s, k, gap);
    } else {
      // the significand is at most 2^53 - 1
      ScaledMonotone(m, TwoTo(SIGNIFICAND_BITS) - 1, s);
      ScaledSum(TwoTo(SIGNIFICAND_BITS) - 1, 1, s);
      ScaledTwice(1, SIGNIFICAND_BITS, s);
      PowersGrow(s, gap, SIGNIFICAND_BITS);
    }
  }

  /** A multiple of 2^gap below 2^k is at least 2^gap below it. */
  lemma CoarseGap(m: int, s: nat, k: nat, gap: nat)
    requires gap <= s && gap <= k && Scaled(m, s) < TwoTo(k)
    ensures Scaled(m, s) <= TwoTo(k) - TwoTo(gap)
  {
    var a, b := Scaled(m, s - gap), TwoTo(k - gap);
    ScaledTwice(m, s - gap, gap);
    ScaledTwice(1, k - gap, gap);
    ScaledMonotone(b, a, gap);
    ScaledMonotone(a + 1, b, gap);
    ScaledSum(a, 1, gap);
  }

  lemma {:induction false} PowersGrow(a: nat, b: nat, bits: nat)
    requires a <= b
    ensures TwoTo(a + bits) - TwoTo(a) <= TwoTo(b + bits) - TwoTo(b)
    decreases b
  {
    if a < b {
      PowersGrow(a, b - 1, bits);
      ScaledTwice(1, 1, b - 1);
      ScaledTwice(1, 1, b - 1 + bits);
      ScaledSum(1, 1, b - 1);
      ScaledSum(1, 1, b - 1 + bits);
      ScaledTwice(1, bits, b - 1);
      ScaledTwice(1, 0, bits);
      PowerPositive(bits);
      ScaledMonotone(1, TwoTo(bits), b - 1);
    }
  }

  lemma {:induction false} PowerPositive(n: nat)
    ensures TwoTo(n) >= 1
  {
    if n > 0 {
      PowerPositive(n - 1);
      ScaledSum(1, 1, n - 1);
    }
  }

  function Abs(x: int): nat {
    if x < 0 then -x else x
  }

  /** y is a double nearest to x divided by 2^n. */
  ghost predicate Nearest(x: int, n: nat, y: int) {
    IsDouble(y) && forall z :: IsDouble(z) ==> Abs(x - Scaled(y, n)) <= Abs(x - Scaled(z, n))
  }

  /** Rounding does nothing to a double. */
  lemma NearestToDouble(x: int, n: nat, y: int)
    requires IsDouble(x) && Nearest(Scaled(x, n), n, y)
    ensures y == x
  {
    ScaledMonotone(x, y, n);
    ScaledMonotone(y, x, n);
  }

  /** The largest 64-bit id. */
  function MaxId(): int {
    TwoTo(ID_BITS) - 1
  }

  lemma PowersAreDoubles(n: nat)
    requires n <= 2045
    ensures IsDouble(TwoTo(n))
  {
    PowerPositive(SIGNIFICAND_BITS - 1);
    ScaledSum(1, 1, SIGNIFICAND_BITS - 1);
    assert Represents(1, n, TwoTo(n));
  }

  /** The largest 64-bit id becomes 2^64 as a double. */
  lemma MaxIdRoundsUp(scale: int)
    requires Nearest(Scaled(MaxId(), UNIT_BITS), 0, scale)
    ensures scale == TwoTo(ID_BITS + UNIT_BITS)
  {
    ScaledSum(MaxId(), 1, UNIT_BITS);
    ScaledTwice(1, ID_BITS, UNIT_BITS);
    NothingNearer(scale, ID_BITS + UNIT_BITS, UNIT_BITS);
  }

  /** Just below a power of two, rounding goes up to it. */
  lemma NothingNearer(y: int, k: nat, n: nat)
    requires n + SIGNIFICAND_BITS + 2 <= k <= 2045 && Nearest(TwoTo(k) - TwoTo(n), 0, y)
    ensures y == TwoTo(k)
  {
    PowersAreDoubles(k);
    assert Abs(TwoTo(k) - TwoTo(n) - Scaled(y, 0)) <= Abs(TwoTo(k) - TwoTo(n) - Scaled(TwoTo(k), 0));
    PowerPositive(n);
    if y < TwoTo(k) {
      var gap := k - SIGNIFICAND_BITS;
      GapBelowPower(y, k, gap);
      FarAbove(n, gap);
    }
  }

  lemma FarAbove(n: nat, k: nat)
    requires k >= n + 2
    ensures TwoTo(k) >= 4 * TwoTo(n)
  {
    PowerPositive(k - n - 2);
    ScaledTwice(1, 2, k - n - 2);
    ScaledSum(1, 1, k - n - 2);
    ScaledSum(2, 2, k - n - 2);
    assert TwoTo(k - n) >= 4;
    ScaledTwice(1, k - n, n);
    ScaledMonotone(4, TwoTo(k - n), n);
    ScaledSum(1, 1, n);
    ScaledSum(2, 2, n);
  }

  /** A rate scaled by 2^64 is a double. */
  lemma ScaledRateIsDouble(rate: int)
    requires IsDouble(rate) && 0 < rate < One()
    ensures IsDouble(Scaled(rate, ID_BITS))
  {
    var m: int, s: nat :| Represents(m, s, rate);
    if s >= UNIT_BITS {
      CoarseGap(m, s, UNIT_BITS, UNIT_BITS);
    } else {
      ScaledTwice(m, s, ID_BITS);
      assert Represents(m, s + ID_BITS, Scaled(rate, ID_BITS));
    }
  }

  /** Hence the multiplication by 2^64 needs no rounding. */
  lemma ScaledRateIsExact(rate: int, product: int)
    requires IsDouble(rate) && 0 < rate < One() && Nearest(rate * TwoTo(ID_BITS + UNIT_BITS), UNIT_BITS, product)
    ensures product == Scaled(rate, ID_BITS)
  {
    ScaledRateIsDouble(rate);
    ScaledIsTimes(rate, 1, ID_BITS + UNIT_BITS);
    ScaledTwice(rate, ID_BITS, UNIT_BITS);
    NearestToDouble(Scaled(rate, ID_BITS), UNIT_BITS, product);
  }

  // ---------------------------------------------------------------- the sampler

  datatype Sampler = Never | Always | Below(boundary: int)

  /** The sampler for a rate, given the double that the multiplication yields; converting it to a 64-bit id
      drops its fraction. */
  function SamplerFor(rate: int, product: int): Sampler {
    if rate <= 0 then Never
    else if rate >= One() then Always
    else Below(Quotient(product, UNIT_BITS))
  }

  predicate Samples(s: Sampler, id: int) {
    match s
    case Never => false
    case Always => true
    case Below(boundary) => id < boundary
  }

  /** The product is the one floating point computes for the rate and the largest id. */
  ghost predicate Computed(rate: int, scale: int, product: int) {
    && IsDouble(rate)
    && Nearest(Scaled(MaxId(), UNIT_BITS), 0, scale)
    && (0 < rate < One() ==> Nearest(rate * scale, UNIT_BITS, product))
  }

  function Clamped(rate: int): int {
    if rate < 0 then 0 else if rate > One() then One() else rate
  }

  /** count is the rate's share of all 2^64 ids, rounded down: count / 2^64 <= rate < (count + 1) / 2^64. */
  ghost predicate IsShare(count: int, rate: int) {
    Scaled(count, UNIT_BITS) <= Scaled(Clamped(rate), ID_BITS) < Scaled(count + 1, UNIT_BITS)
  }

  lemma ShareIsMonotone(a: int, low: int, b: int, high: int)
    requires IsShare(a, low) && IsShare(b, high) && low <= high
    ensures a <= b
  {
    PowerPositive(UNIT_BITS);
    ScaledMonotone(Clamped(low), Clamped(high), ID_BITS);
    ScaledMonotone(b + 1, a, UNIT_BITS);
  }

  function CountFor(rate: int): int {
    Quotient(Scaled(Clamped(rate), ID_BITS), UNIT_BITS)
  }

  lemma CountIsShare(rate: int)
    ensures IsShare(CountFor(rate), rate) && 0 <= CountFor(rate) <= TwoTo(ID_BITS)
  {
    QuotientIsFloor(Scaled(Clamped(rate), ID_BITS), UNIT_BITS);
    EndShares();
    ShareIsMonotone(0, 0, CountFor(rate), Clamped(rate));
    ShareIsMonotone(CountFor(rate), Clamped(rate), TwoTo(ID_BITS), One());
  }

  /** The clamped ends: no id, and every id. */
  lemma EndShares()
    ensures One() >= 1 && IsShare(0, 0) && IsShare(TwoTo(ID_BITS), One())
  {
    PowerPositive(UNIT_BITS);
    ScaledZero(ID_BITS);
    ScaledZero(UNIT_BITS);
    ScaledTwice(1, ID_BITS, UNIT_BITS);
    ScaledTwice(1, UNIT_BITS, ID_BITS);
    ScaledSum(TwoTo(ID_BITS), 1, UNIT_BITS);
  }

  /** An id is sampled exactly when it is below the rate's share of all ids. */
  lemma SamplesShare(rate: int, scale: int, product: int, id: int)
    requires Computed(rate, scale, product) && 0 <= id < TwoTo(ID_BITS)
    ensures Samples(SamplerFor(rate, product), id) <==> id < CountFor(rate)
  {
    MaxIdRoundsUp(scale);
    CountIsShare(rate);
    EndShares();
    if rate <= 0 {
      ShareIsMonotone(CountFor(rate), rate, 0, 0);
    } else if rate < One() {
      ScaledRateIsExact(rate, product);
    } else {
      ShareIsMonotone(TwoTo(ID_BITS), One(), CountFor(rate), rate);
    }
  }

  /** The conversion to a 64-bit id cannot overflow: a rate below one stays 2^-53 below it, so the boundary
      stays 2^11 below 2^64. */
  lemma BoundaryFits(rate: int, scale: int, product: int)
    requires Computed(rate, scale, product) && 0 < rate < One()
    ensures rate <= One() - TwoTo(UNIT_BITS - SIGNIFICAND_BITS)
    ensures 0 <= Quotient(product, UNIT_BITS) <= TwoTo(ID_BITS) - TwoTo(ID_BITS - SIGNIFICAND_BITS)
  {
    MaxIdRoundsUp(scale);
    ScaledRateIsExact(rate, product);
    CountIsShare(rate);
    var gap, short := TwoTo(UNIT_BITS - SIGNIFICAND_BITS), TwoTo(ID_BITS - SIGNIFICAND_BITS);
    GapBelowPower(rate, UNIT_BITS, UNIT_BITS - SIGNIFICAND_BITS);
    ScaledMonotone(rate, One() - gap, ID_BITS);
    ScaledSum(One() - gap, gap, ID_BITS);
    ScaledTwice(1, UNIT_BITS, ID_BITS);
    ScaledTwice(1, UNIT_BITS - SIGNIFICAND_BITS, ID_BITS);
    ScaledTwice(1, ID_BITS, UNIT_BITS);
    ScaledTwice(1, ID_BITS - SIGNIFICAND_BITS, UNIT_BITS);
    ScaledSum(TwoTo(ID_BITS) - short, short, UNIT_BITS);
    ScaledMonotone(CountFor(rate), TwoTo(ID_BITS) - short, UNIT_BITS);
  }

  ghost function IdsUpTo(n: nat): set<int> {
    if n == 0 then {} else IdsUpTo(n - 1) + {n - 1}
  }

  lemma {:induction false} IdsUpToSize(n: nat)
    ensures |IdsUpTo(n)| == n && forall id :: id in IdsUpTo(n) <==> 0 <= id < n
  {
    if n > 0 {
      IdsUpToSize(n - 1);
    }
  }

  ghost function SampledIds(s: Sampler): set<int> {
    set id | 0 <= id < TwoTo(ID_BITS) && Samples(s, id)
  }

  /** As many ids are sampled as make the rate's share of 2^64: the sampled fraction is at most the rate and
      within 2^-64 of it. */
  lemma SampledFraction(rate: int, scale: int, product: int)
    requires Computed(rate, scale, product)
    ensures IsShare(|SampledIds(SamplerFor(rate, product))|, rate)
  {
    CountIsShare(rate);
    IdsUpToSize(CountFor(rate));
    var sampled := SampledIds(SamplerFor(rate, product));
    forall id
      ensures id in sampled <==> id in IdsUpTo(CountFor(rate))
    {
      if 0 <= id < TwoTo(ID_BITS) {
        SamplesShare(rate, scale, product, id);
      }
    }
    assert sampled == IdsUpTo(CountFor(rate));
  }

  /** An id sampled at a rate is sampled at every higher rate, including the clamped ends. */
  lemma SampledSetsAreNested(low: int, lowProduct: int, high: int, highProduct: int, scale: int)
    requires Computed(low, scale, lowProduct) && Computed(high, scale, highProduct) && low <= high
    ensures SampledIds(SamplerFor(low, lowProduct)) <= SampledIds(SamplerFor(high, highProduct))
  {
    CountIsShare(low);
    CountIsShare(high);
    ShareIsMonotone(CountFor(low), low, CountFor(high), high);
    forall id | id in SampledIds(SamplerFor(low, lowProduct))
      ensures id in SampledIds(SamplerFor(high, highProduct))
    {
      SamplesShare(low, scale, lowProduct, id);
      SamplesShare(high, scale, highProduct, id);
    }
  }

  lemma Squared(n: nat)
    ensures TwoTo(2 * n) == TwoTo(n) * TwoTo(n)
  {
    ScaledTwice(1, n, n);
    ScaledIsTimes(TwoTo(n), 1, n);
  }

  lemma PowersInNumbers()
    ensures TwoTo(64) == 18446744073709551616 && TwoTo(63) == 9223372036854775808
  {
    assert TwoTo(8) == 256;
    Squared(8);
    Squared(16);
    Squared(32);
    ScaledSum(1, 1, 63);
  }

  lemma HalfIsShare(rate: int)
    requires 2 * rate == One()
    ensures IsShare(TwoTo(63), rate)
  {
    PowerPositive(UNIT_BITS);
    assert Scaled(rate, 64) == Scaled(One(), 63);
    ScaledTwice(1, UNIT_BITS, 63);
    ScaledTwice(1, 63, UNIT_BITS);
    ScaledSum(TwoTo(63), 1, UNIT_BITS);
  }

  /** In numbers: the largest id, and how many ids the rate one half samples. */
  lemma HalfTheIds(rate: int, scale: int, product: int)
    requires Computed(rate, scale, product) && 2 * rate == One()
    ensures MaxId() == 18446744073709551615
    ensures |SampledIds(SamplerFor(rate, product))| == 9223372036854775808
  {
    PowersInNumbers();
    HalfIsShare(rate);
    SampledFraction(rate, scale, product);
    var n := |SampledIds(SamplerFor(rate, product))|;
    ShareIsMonotone(n, rate, TwoTo(63), rate);
    ShareIsMonotone(TwoTo(63), rate, n, rate);
  }
}
