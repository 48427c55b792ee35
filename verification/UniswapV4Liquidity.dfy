/**
 * Sizing of concentrated-liquidity positions: the token deltas of a position, the search for the
 * largest liquidity within a token cap, and the plans built on it.
 *
 * Prices are square roots in X96 form; those of a plan's ticks are given as a `PriceRange`.
 */
module UniswapV4Liquidity {
  import opened Arith
  import opened Wrappers

  const Q96: int := 79_228_162_514_264_337_593_543_950_336
  const PILOT_USDC_CAP: nat := 50_000_000
  const TARGET_TOTAL_LIQUIDITY: int := 138_501_527_279_400_417_396
  const TARGET_USDC_MAX: int := 2_103_852_527_328
  const TARGET_USDFR_MAX: int := 2_339_647_912_981_486_927_614_300

  datatype PriceRange = PriceRange(lower: int, upper: int) {
    predicate Valid() { 0 < lower < upper }
  }

  function DivRoundingUp(n: int, d: int): int
    requires d > 0
  {
    n / d + if n % d == 0 then 0 else 1
  }

  function Amount0(liquidity: int, lower: int, upper: int): int
    requires 0 < lower && 0 < upper
  {
    DivRoundingUp(DivRoundingUp(liquidity * Q96 * (upper - lower), upper), lower)
  }

  function Amount1Delta(liquidity: int, priceA: int, priceB: int): int {
    DivRoundingUp(liquidity * (Max(priceA, priceB) - Min(priceA, priceB)), Q96)
  }

  datatype Quote = Quote(token0: int, token1: int)

  /** What a position needs of each token at a price below, above or inside its range. */
  function QuoteLiquidity(price: int, liquidity: int, range: PriceRange): Quote
    requires range.Valid()
  {
    if price <= range.lower then Quote(Amount0(liquidity, range.lower, range.upper), 0)
    else if price >= range.upper then Quote(0, Amount1Delta(liquidity, range.lower, range.upper))
    else Quote(Amount0(liquidity, price, range.upper), Amount1Delta(liquidity, range.lower, price))
  }

  // ===== Rounding =====

  lemma RoundingUpLe(n: int, d: int, q: int)
    requires d > 0
    ensures DivRoundingUp(n, d) <= q <==> n <= q * d
  {
    FloorLe(n, d, q + 1);
    assert (q + 1) * d == q * d + d;
    assert n == n / d * d + n % d;
    if n % d == 0 {
      if n <= q * d {
        CancelLe(n / d, q, d);
      } else if n / d <= q {
        MulMono(n / d, q, d);
      }
    } else if n / d == q {
      assert q * d < n;
    }
  }

  /** Two nested round-ups are one round-up over the product. */
  lemma NestedRoundUp(n: int, u: int, l: int)
    requires 0 < u && 0 < l
    ensures u * l > 0
    ensures DivRoundingUp(DivRoundingUp(n, u), l) == DivRoundingUp(n, u * l)
  {
    MulMono(1, u, l);
    var nested, once := DivRoundingUp(DivRoundingUp(n, u), l), DivRoundingUp(n, u * l);
    NestedRoundUpLe(n, u, l, nested);
    RoundingUpLe(n, u * l, nested);
    NestedRoundUpLe(n, u, l, once);
    RoundingUpLe(n, u * l, once);
  }

  lemma NestedRoundUpLe(n: int, u: int, l: int, q: int)
    requires 0 < u && 0 < l
    ensures DivRoundingUp(DivRoundingUp(n, u), l) <= q <==> n <= q * (u * l)
  {
    RoundingUpLe(DivRoundingUp(n, u), l, q);
    RoundingUpLe(n, u, q * l);
    assert q * l * u == q * (u * l);
  }

  /** The largest liquidity whose first-token amount fits a cap. */
  function ClosedForm(cap: int, lower: int, upper: int): int
    requires 0 < lower < upper
  {
    cap * lower * upper / (Q96 * (upper - lower))
  }

  /** A liquidity fits the cap exactly when it does not exceed the closed form. */
  lemma FitsCap(liquidity: int, cap: int, lower: int, upper: int)
    requires 0 < lower < upper
    ensures Amount0(liquidity, lower, upper) <= cap <==> liquidity <= ClosedForm(cap, lower, upper)
  {
    NestedRoundUpLe(liquidity * Q96 * (upper - lower), upper, lower, cap);
    FloorLe(cap * lower * upper, Q96 * (upper - lower), liquidity);
    Associate(cap, lower, upper);
    Associate(liquidity, Q96, upper - lower);
  }

  lemma Associate(x: int, y: int, z: int)
    ensures x * y * z == x * (y * z) == x * (z * y)
  {
  }

  /** The first bound of the search is already too large, so its doubling never happens. */
  lemma DoublingNeverRuns(cap: int, lower: int, upper: int)
    requires 0 < lower < upper
    ensures Amount0(ClosedForm(cap, lower, upper) + 2, lower, upper) > cap
  {
    FitsCap(ClosedForm(cap, lower, upper) + 2, cap, lower, upper);
  }

  /** Doubles a bound until it is too large; one that already is stays as it is. */
  method DoubleUntilTooLarge(bound: int, cap: nat, lower: int, upper: int) returns (high: int)
    requires 0 < lower < upper && bound >= 1
    ensures high >= bound && Amount0(high, lower, upper) > cap
    ensures Amount0(bound, lower, upper) > cap ==> high == bound
  {
    ghost var best := ClosedForm(cap, lower, upper);
    high := bound;
    FitsCap(high, cap, lower, upper);
    while Amount0(high, lower, upper) <= cap
      invariant high >= bound
      invariant Amount0(bound, lower, upper) > cap ==> high == bound
      invariant Amount0(high, lower, upper) <= cap <==> high <= best
      decreases best - high
    {
      high := high * 2;
      FitsCap(high, cap, lower, upper);
    }
  }

  /** The search both sizings share finds the closed form exactly; its doubling never happens. */
  method Search(cap: nat, lower: int, upper: int) returns (liquidity: int)
    requires 0 < lower < upper
    ensures liquidity == ClosedForm(cap, lower, upper) >= 0
  {
    ghost var best := ClosedForm(cap, lower, upper);
    MulMono2(0, cap, 0, lower);
    MulMono2(0, cap * lower, 0, upper);
    FloorLe(cap * lower * upper, Q96 * (upper - lower), 0);
    var low := 0;
    var bound := cap * lower * upper / (Q96 * (upper - lower)) + 2;
    var high := DoubleUntilTooLarge(bound, cap, lower, upper);
    DoublingNeverRuns(cap, lower, upper);
    assert high == bound;
    while low + 1 < high
      invariant 0 <= low <= best < high
    {
      var midpoint := (low + high) / 2;
      FitsCap(midpoint, cap, lower, upper);
      if Amount0(midpoint, lower, upper) <= cap {
        low := midpoint;
      } else {
        high := midpoint;
      }
    }
    return low;
  }

  method MaxLiquidityForUsdc(price: int, cap: nat, range: PriceRange) returns (r: Result<int, string>)
    requires range.Valid()
    ensures r.Ok? <==> range.lower < price < range.upper && ClosedForm(cap, price, range.upper) > 0
    ensures r.Ok? ==> r.value == ClosedForm(cap, price, range.upper)
  {
    if price <= range.lower || price >= range.upper {
      return Err("The pool price is outside the approved liquidity range.");
    }
    var low := Search(cap, price, range.upper);
    if low == 0 {
      return Err("The 50 USDC pilot is too small at this price.");
    }
    return Ok(low);
  }

  // ===== Amounts grow with the price interval and the liquidity =====

  lemma RoundingUpMono(n: int, n': int, d: int)
    requires n <= n' && d > 0
    ensures DivRoundingUp(n, d) <= DivRoundingUp(n', d)
  {
    RoundingUpLe(n', d, DivRoundingUp(n', d));
    RoundingUpLe(n, d, DivRoundingUp(n', d));
  }

  lemma Amount1Mono(liquidity: nat, lower: int, price: int, upper: int)
    requires lower <= price <= upper
    ensures 0 <= Amount1Delta(liquidity, lower, price) <= Amount1Delta(liquidity, lower, upper)
    ensures liquidity > 0 && lower < price ==> Amount1Delta(liquidity, lower, price) > 0
  {
    MulMono(price - lower, upper - lower, liquidity);
    RoundingUpMono(liquidity * (price - lower), liquidity * (upper - lower), Q96);
    MulMono2(0, liquidity, 0, price - lower);
    RoundingUpLe(liquidity * (price - lower), Q96, -1);
    if liquidity > 0 && lower < price {
      MulMono2(1, liquidity, 1, price - lower);
      RoundingUpLe(liquidity * (price - lower), Q96, 0);
    }
  }

  lemma Amount0Positive(liquidity: int, lower: int, upper: int)
    requires 0 < lower < upper && liquidity > 0
    ensures Amount0(liquidity, lower, upper) > 0
  {
    FitsCap(liquidity, 0, lower, upper);
    assert 0 * lower * upper == 0;
  }

  /** At no price does a position need more of the second token than at the top of its range. */
  lemma Token1NeverExceedsUpper(liquidity: nat, range: PriceRange)
    requires range.Valid()
    ensures forall live :: QuoteLiquidity(live, liquidity, range).token1 <= Amount1Delta(liquidity, range.lower, range.upper)
  {
    forall live
      ensures QuoteLiquidity(live, liquidity, range).token1 <= Amount1Delta(liquidity, range.lower, range.upper)
    {
      if range.lower < live < range.upper {
        Amount1Mono(liquidity, range.lower, live, range.upper);
      } else {
        Amount1Mono(liquidity, range.lower, range.upper, range.upper);
      }
    }
  }

  // ===== Plans =====

  datatype LiquidityPlan = LiquidityPlan(liquidity: int, expectedUsdc: int, expectedUsdfr: int, maxUsdc: int, maxUsdfr: int)

  datatype MintEvidence = MintEvidence(liquidity: int, usdcSpent: int, usdfrSpent: int)

  /**
   * The pilot: at the live price it spends at most the cap, with not one more unit of liquidity
   * possible, and its second-token maximum is what this liquidity can need at any price whatever.
   */
  method BuildPilotPlan(price: int, range: PriceRange) returns (r: Result<LiquidityPlan, string>)
    requires range.Valid()
    ensures r.Ok? <==> range.lower < price < range.upper && ClosedForm(PILOT_USDC_CAP, price, range.upper) > 0
    ensures r.Ok? ==>
              var plan := r.value;
              && Quote(plan.expectedUsdc, plan.expectedUsdfr) == QuoteLiquidity(price, plan.liquidity, range)
              && 0 < plan.expectedUsdc <= plan.maxUsdc == PILOT_USDC_CAP
              && QuoteLiquidity(price, plan.liquidity + 1, range).token0 > PILOT_USDC_CAP
              && (forall live :: QuoteLiquidity(live, plan.liquidity, range).token1 <= plan.maxUsdfr)
              && QuoteLiquidity(range.upper, plan.liquidity, range).token1 == plan.maxUsdfr
  {
    var sized := MaxLiquidityForUsdc(price, PILOT_USDC_CAP, range);
    if sized.Err? {
      return Err(sized.error);
    }
    var liquidity := sized.value;
    var expected := QuoteLiquidity(price, liquidity, range);
    FitsCap(liquidity, PILOT_USDC_CAP, price, range.upper);
    FitsCap(liquidity + 1, PILOT_USDC_CAP, price, range.upper);
    Amount0Positive(liquidity, price, range.upper);
    Token1NeverExceedsUpper(liquidity, range);
    r := Ok(LiquidityPlan(liquidity, expected.token0, expected.token1, PILOT_USDC_CAP,
                          Amount1Delta(liquidity, range.lower, range.upper)));
  }

  /** The remainder completes the target exactly, and pilot plus remainder stay within both total caps. */
  method BuildRemainderPlan(price: int, range: PriceRange, pilot: MintEvidence) returns (r: Result<LiquidityPlan, string>)
    requires range.Valid()
    ensures r.Ok? ==>
              var plan := r.value;
              && pilot.liquidity > 0 && plan.liquidity > 0 && pilot.liquidity + plan.liquidity == TARGET_TOTAL_LIQUIDITY
              && Quote(plan.expectedUsdc, plan.expectedUsdfr) == QuoteLiquidity(price, plan.liquidity, range)
              && pilot.usdcSpent + plan.expectedUsdc <= pilot.usdcSpent + plan.maxUsdc == TARGET_USDC_MAX
              && pilot.usdfrSpent + plan.expectedUsdfr <= pilot.usdfrSpent + plan.maxUsdfr == TARGET_USDFR_MAX
    ensures r.Ok? <==>
              && 0 < pilot.liquidity < TARGET_TOTAL_LIQUIDITY
              && pilot.usdcSpent <= TARGET_USDC_MAX && pilot.usdfrSpent <= TARGET_USDFR_MAX
              && var needed := QuoteLiquidity(price, TARGET_TOTAL_LIQUIDITY - pilot.liquidity, range);
                 pilot.usdcSpent + needed.token0 <= TARGET_USDC_MAX && pilot.usdfrSpent + needed.token1 <= TARGET_USDFR_MAX
  {
    if pilot.liquidity <= 0 || pilot.liquidity >= TARGET_TOTAL_LIQUIDITY {
      return Err("The confirmed pilot liquidity is outside the approved target.");
    }
    if pilot.usdcSpent > TARGET_USDC_MAX || pilot.usdfrSpent > TARGET_USDFR_MAX {
      return Err("The pilot spend exceeds the owner-reviewed total caps.");
    }
    var liquidity := TARGET_TOTAL_LIQUIDITY - pilot.liquidity;
    var expected := QuoteLiquidity(price, liquidity, range);
    var maxUsdc, maxUsdfr := TARGET_USDC_MAX - pilot.usdcSpent, TARGET_USDFR_MAX - pilot.usdfrSpent;
    if expected.token0 > maxUsdc || expected.token1 > maxUsdfr {
      return Err("The live price would exceed the remaining owner-reviewed token caps.");
    }
    r := Ok(LiquidityPlan(liquidity, expected.token0, expected.token1, maxUsdc, maxUsdfr));
  }

  /** The price held inside the range. */
  function Clamped(price: int, range: PriceRange): int {
    Max(range.lower, Min(price, range.upper))
  }

  /**
   * At every price, below, inside or above the range, the quote is the least of each token that the
   * liquidity needs between the clamped price and the range's ends.
   */
  lemma QuoteIsLeast(price: int, liquidity: nat, range: PriceRange, q: nat)
    requires range.Valid()
    ensures var p, quote := Clamped(price, range), QuoteLiquidity(price, liquidity, range);
            && (quote.token0 <= q <==> liquidity * Q96 * (range.upper - p) <= q * (p * range.upper))
            && (quote.token1 <= q <==> liquidity * (p - range.lower) <= q * Q96)
  {
    var p := Clamped(price, range);
    NestedRoundUpLe(liquidity * Q96 * (range.upper - p), range.upper, p, q);
    RoundingUpLe(liquidity * (p - range.lower), Q96, q);
    assert q * (range.upper * p) == q * (p * range.upper);
    if price >= range.upper {
      assert liquidity * Q96 * 0 == 0;
      MulMono2(0, q, 0, p * range.upper);
    }
    if price <= range.lower {
      assert liquidity * 0 == 0;
    }
  }
}
