/**
 * The fixed two-position operation: an in-range seed capped in the first token, then a
 * first-token-only wall with whatever of the total cap the seed left.
 */
module UniswapV4SusdfrLiquidity {
  import opened Arith
  import opened UniswapV4Liquidity
  import opened Wrappers

  const INITIAL_SQRT_PRICE: int := 78_987_616_558_622_955_295_902_997_146_760_324_135
  const SEED_TICK_LOWER: int := 414_192
  const SEED_TICK_UPPER: int := 414_536
  const WALL_TICK_LOWER: int := 415_000
  const WALL_TICK_UPPER: int := 416_112
  const SEED_USDC_CAP: nat := 50_000_000
  const TOTAL_USDC_CAP: nat := 250_000_000_000

  datatype Kind = Seed | Wall

  datatype SusdfrPlan = SusdfrPlan(
    kind: Kind, tickLower: int, tickUpper: int, liquidity: int,
    expectedUsdc: int, expectedSusdfr: int, maxUsdc: int, maxSusdfr: int)

  datatype SeedEvidence = SeedEvidence(usdcSpent: int, susdfrSpent: int)

  method MaximumLiquidityForAmount0(cap: int, priceA: int, priceB: int) returns (r: Result<int, string>)
    ensures r.Ok? <==> cap > 0 && 0 < priceA < priceB && ClosedForm(cap, priceA, priceB) > 0
    ensures r.Ok? ==> r.value == ClosedForm(cap, priceA, priceB)
  {
    if cap <= 0 || priceA <= 0 || priceA >= priceB {
      return Err("Invalid amount0 liquidity bounds.");
    }
    var low := Search(cap, priceA, priceB);
    if low == 0 {
      return Err("The approved USDC cap is too small.");
    }
    return Ok(low);
  }

  /** What the release check accepts. */
  predicate Approved(plan: SusdfrPlan) {
    var seed := plan.kind == Seed;
    !(|| plan.liquidity <= 0
      || plan.tickLower != (if seed then SEED_TICK_LOWER else WALL_TICK_LOWER)
      || plan.tickUpper != (if seed then SEED_TICK_UPPER else WALL_TICK_UPPER)
      || plan.expectedUsdc <= 0
      || plan.expectedUsdc > plan.maxUsdc
      || plan.expectedSusdfr > plan.maxSusdfr
      || (seed && (plan.maxUsdc != SEED_USDC_CAP || plan.expectedSusdfr <= 0))
      || (!seed && (plan.maxSusdfr != 0 || plan.expectedSusdfr != 0)))
  }

  /**
   * The seed is offered only on an uninitialized pool; once sized it always passes the release
   * check, spends at most its cap at the initial price, and could not be one unit larger.
   */
  method BuildSusdfrSeedPlan(poolPrice: int, range: PriceRange) returns (r: Result<SusdfrPlan, string>)
    requires range.Valid()
    ensures r.Ok? <==> && poolPrice == 0 && range.lower < INITIAL_SQRT_PRICE < range.upper
                       && ClosedForm(SEED_USDC_CAP, INITIAL_SQRT_PRICE, range.upper) > 0
    ensures r.Ok? ==>
              var plan := r.value;
              && Approved(plan) && plan.kind == Seed
              && Quote(plan.expectedUsdc, plan.expectedSusdfr) == QuoteLiquidity(INITIAL_SQRT_PRICE, plan.liquidity, range)
              && 0 < plan.expectedUsdc <= plan.maxUsdc == SEED_USDC_CAP
              && SEED_USDC_CAP < QuoteLiquidity(INITIAL_SQRT_PRICE, plan.liquidity + 1, range).token0
              && (forall live :: QuoteLiquidity(live, plan.liquidity, range).token1 <= plan.maxSusdfr)
              && QuoteLiquidity(range.upper, plan.liquidity, range).token1 == plan.maxSusdfr
  {
    if poolPrice != 0 {
      return Err("The approved USDC/sUSDfr pool is already initialized.");
    }
    if INITIAL_SQRT_PRICE <= range.lower || INITIAL_SQRT_PRICE >= range.upper {
      return Err("The approved initial price is outside the seed range.");
    }
    var sized := MaximumLiquidityForAmount0(SEED_USDC_CAP, INITIAL_SQRT_PRICE, range.upper);
    if sized.Err? {
      return Err(sized.error);
    }
    var liquidity := sized.value;
    FitsCap(liquidity, SEED_USDC_CAP, INITIAL_SQRT_PRICE, range.upper);
    FitsCap(liquidity + 1, SEED_USDC_CAP, INITIAL_SQRT_PRICE, range.upper);
    Amount0Positive(liquidity, INITIAL_SQRT_PRICE, range.upper);
    Amount1Mono(liquidity, range.lower, INITIAL_SQRT_PRICE, range.upper);
    Token1NeverExceedsUpper(liquidity, range);
    var plan := SusdfrPlan(Seed, SEED_TICK_LOWER, SEED_TICK_UPPER, liquidity,
                           Amount0(liquidity, INITIAL_SQRT_PRICE, range.upper),
                           Amount1Delta(liquidity, range.lower, INITIAL_SQRT_PRICE),
                           SEED_USDC_CAP, Amount1Delta(liquidity, range.lower, range.upper));
    r := if Approved(plan) then Ok(plan) else Err("The liquidity plan is outside the approved operation.");
  }

  /**
   * The wall never takes the two positions past the total cap, needs none of the second token at
   * the live price, and uses the remaining cap up to the last unit of liquidity.
   */
  method BuildSusdfrWallPlan(poolPrice: int, range: PriceRange, seed: SeedEvidence) returns (r: Result<SusdfrPlan, string>)
    requires range.Valid()
    ensures r.Ok? <==> && poolPrice != 0 && poolPrice <= range.lower
                       && 0 < seed.usdcSpent <= SEED_USDC_CAP && 0 < seed.susdfrSpent
                       && ClosedForm(TOTAL_USDC_CAP - seed.usdcSpent, range.lower, range.upper) > 0
    ensures r.Ok? ==>
              var plan := r.value;
              && Approved(plan) && plan.kind == Wall
              && Quote(plan.expectedUsdc, plan.expectedSusdfr) == QuoteLiquidity(poolPrice, plan.liquidity, range)
              && seed.usdcSpent + plan.expectedUsdc <= seed.usdcSpent + plan.maxUsdc == TOTAL_USDC_CAP
              && seed.usdcSpent + QuoteLiquidity(poolPrice, plan.liquidity + 1, range).token0 > TOTAL_USDC_CAP
  {
    if poolPrice == 0 {
      return Err("The USDC/sUSDfr pool is not initialized.");
    }
    if poolPrice > range.lower {
      return Err("The pool price has entered the wall range; the USDC-only operation is locked.");
    }
    if seed.usdcSpent <= 0 || seed.usdcSpent > SEED_USDC_CAP || seed.susdfrSpent <= 0 {
      return Err("The confirmed seed spend is outside the approved operation.");
    }
    var remaining := TOTAL_USDC_CAP - seed.usdcSpent;
    var sized := MaximumLiquidityForAmount0(remaining, range.lower, range.upper);
    if sized.Err? {
      return Err(sized.error);
    }
    var liquidity := sized.value;
    FitsCap(liquidity, remaining, range.lower, range.upper);
    FitsCap(liquidity + 1, remaining, range.lower, range.upper);
    Amount0Positive(liquidity, range.lower, range.upper);
    var plan := SusdfrPlan(Wall, WALL_TICK_LOWER, WALL_TICK_UPPER, liquidity,
                           Amount0(liquidity, range.lower, range.upper), 0, remaining, 0);
    r := if Approved(plan) then Ok(plan) else Err("The liquidity plan is outside the approved operation.");
  }
}
