/**
 * The lending market's arithmetic: interest accrual with fee-share dilution, and the
 * share/asset conversions with Morpho's virtual offsets and directed rounding.
 */
module MorphoMarket {
  import opened Arith
  import opened Wrappers

  const WAD: int := 1_000_000_000_000_000_000
  const ORACLE_SCALE: int := 1_000_000_000_000_000_000_000_000_000_000_000_000
  const VIRTUAL_SHARES: int := 1_000_000
  const LLTV: int := 860_000_000_000_000_000
  const BPS: int := 10_000

  // The pinned rate model's ceiling, rounded up.
  const MAX_MARKET_RATE: int := CeilDiv(8 * WAD, 31_536_000)

  datatype MarketState = MarketState(
    totalSupplyAssets: int, totalSupplyShares: int,
    totalBorrowAssets: int, totalBorrowShares: int,
    lastUpdate: int, fee: int)
  {
    // What the contract's unsigned fields and its fee bound guarantee.
    predicate Valid() {
      && 0 <= totalSupplyAssets && 0 <= totalSupplyShares
      && 0 <= totalBorrowAssets && 0 <= totalBorrowShares
      && 0 <= fee <= WAD
    }
  }

  datatype MarketPosition = MarketPosition(supplyShares: int, borrowShares: int, collateral: int) {
    predicate Valid() {
      0 <= supplyShares && 0 <= borrowShares && 0 <= collateral
    }
  }

  datatype PositionValues = PositionValues(
    supplied: int, borrowed: int, collateralValue: int, liquidationDebt: int,
    liquidity: int, borrowAvailable: int, ltvBps: Option<int>)

  /** The three-term Taylor growth the contract compounds with, WAD-scaled. */
  function Growth(first: int): int {
    var second := first * first / (2 * WAD);
    var third := second * first / (3 * WAD);
    first + second + third
  }

  function AccrueMarket(m: MarketState, rate: nat, timestamp: int): (a: MarketState)
    requires m.Valid()
    ensures a.Valid()
  {
    var elapsed := timestamp - m.lastUpdate;
    if elapsed <= 0 then m else
      var interest := m.totalBorrowAssets * Growth(rate * elapsed) / WAD;
      var supplyAssets := m.totalSupplyAssets + interest;
      var feeAssets := interest * m.fee / WAD;
      InterestBounds(m, rate, timestamp);
      FeeSharesKeepPrice(m.totalSupplyAssets, m.totalSupplyShares + VIRTUAL_SHARES, interest, feeAssets);
      var feeShares := feeAssets * (m.totalSupplyShares + VIRTUAL_SHARES) / (supplyAssets - feeAssets + 1);
      m.(totalSupplyAssets := supplyAssets,
         totalSupplyShares := m.totalSupplyShares + feeShares,
         totalBorrowAssets := m.totalBorrowAssets + interest,
         lastUpdate := timestamp)
  }

  function MarketPositionValues(m: MarketState, p: MarketPosition, price: int): PositionValues
    requires 0 <= m.totalSupplyShares && 0 <= m.totalBorrowShares
  {
    var supplied := p.supplyShares * (m.totalSupplyAssets + 1) / (m.totalSupplyShares + VIRTUAL_SHARES);
    var borrowed := CeilDiv(p.borrowShares * (m.totalBorrowAssets + 1), m.totalBorrowShares + VIRTUAL_SHARES);
    var collateralValue := p.collateral * price / ORACLE_SCALE;
    var liquidationDebt := collateralValue * LLTV / WAD;
    var liquidity := if m.totalSupplyAssets > m.totalBorrowAssets then m.totalSupplyAssets - m.totalBorrowAssets else 0;
    var remaining := if liquidationDebt > borrowed then liquidationDebt - borrowed else 0;
    PositionValues(supplied, borrowed, collateralValue, liquidationDebt, liquidity, Min(remaining, liquidity),
                   if collateralValue <= 0 then None else Some(CeilDiv(borrowed * BPS, collateralValue)))
  }

  lemma GrowthMonotone(x: int, y: int)
    requires 0 <= x <= y
    ensures 0 <= Growth(x) <= Growth(y)
  {
    MulMono2(x, y, x, y);
    DivMono(x * x, y * y, 2 * WAD);
    DivMono(0, x * x, 2 * WAD);
    var sx, sy := x * x / (2 * WAD), y * y / (2 * WAD);
    MulMono2(sx, sy, x, y);
    DivMono(sx * x, sy * y, 3 * WAD);
    DivMono(0, sx * x, 3 * WAD);
  }

  /** Interest is never negative and the fee never exceeds it. */
  lemma InterestBounds(m: MarketState, rate: nat, timestamp: int)
    requires m.Valid() && m.lastUpdate <= timestamp
    ensures var interest := m.totalBorrowAssets * Growth(rate * (timestamp - m.lastUpdate)) / WAD;
            0 <= interest * m.fee / WAD <= interest
  {
    var first := rate * (timestamp - m.lastUpdate);
    MulMono2(0, rate, 0, timestamp - m.lastUpdate);
    GrowthMonotone(0, first);
    MulMono2(0, m.totalBorrowAssets, 0, Growth(first));
    var interest := m.totalBorrowAssets * Growth(first) / WAD;
    FloorLe(m.totalBorrowAssets * Growth(first), WAD, 0);
    FeeWithinInterest(interest, m.fee);
  }

  lemma FeeWithinInterest(interest: int, fee: int)
    requires 0 <= interest && 0 <= fee <= WAD
    ensures 0 <= interest * fee / WAD <= interest
  {
    MulMono2(0, interest, 0, fee);
    MulMono(fee, WAD, interest);
    FloorLe(interest * fee, WAD, 0);
    FloorLe(interest * fee, WAD, interest + 1);
    assert (interest + 1) * WAD == interest * WAD + WAD;
  }

  // ----- One accrual step -----

  /** Minting `shares` for `feeAssets` out of a total that grew by at least as much keeps the share price. */
  lemma FeeSharesKeepPrice(S: int, Y: int, interest: int, feeAssets: int)
    requires 0 <= S && 0 < Y && 0 <= feeAssets <= interest
    ensures var shares := feeAssets * Y / (S + interest - feeAssets + 1);
            && 0 <= shares
            && (S + 1) * (Y + shares) <= (S + interest + 1) * Y
            && shares * (S + interest + 1) <= feeAssets * (Y + shares)
  {
    var net := S + interest - feeAssets + 1;
    MulMono2(0, feeAssets, 0, Y);
    var shares := feeAssets * Y / net;
    FloorLe(feeAssets * Y, net, 0);
    FloorLe(feeAssets * Y, net, shares);
    assert shares * net <= feeAssets * Y;
    MulMono(S + 1, net, shares);
    MulMono(S + 1 + feeAssets, S + interest + 1, Y);
    assert (S + 1) * (Y + shares) == (S + 1) * Y + (S + 1) * shares;
    assert (S + 1 + feeAssets) * Y == (S + 1) * Y + feeAssets * Y;
    assert shares * (S + interest + 1) == shares * net + shares * feeAssets;
    assert feeAssets * (Y + shares) == feeAssets * Y + shares * feeAssets;
  }

  /** One accrual: both share prices (as cross products) never fall and the liquidity gap is conserved. */
  lemma AccrualStep(m: MarketState, rate: nat, timestamp: int)
    requires m.Valid()
    ensures var a := AccrueMarket(m, rate, timestamp);
            && a.Valid() && a.fee == m.fee && a.lastUpdate == Max(m.lastUpdate, timestamp)
            && a.totalBorrowShares == m.totalBorrowShares
            && a.totalBorrowAssets >= m.totalBorrowAssets
            && a.totalSupplyAssets - a.totalBorrowAssets == m.totalSupplyAssets - m.totalBorrowAssets
            && a.totalSupplyShares >= m.totalSupplyShares
            && (m.totalSupplyAssets + 1) * (a.totalSupplyShares + VIRTUAL_SHARES)
               <= (a.totalSupplyAssets + 1) * (m.totalSupplyShares + VIRTUAL_SHARES)
  {
    if timestamp > m.lastUpdate {
      InterestBounds(m, rate, timestamp);
      var interest := m.totalBorrowAssets * Growth(rate * (timestamp - m.lastUpdate)) / WAD;
      FeeSharesKeepPrice(m.totalSupplyAssets, m.totalSupplyShares + VIRTUAL_SHARES, interest, interest * m.fee / WAD);
    }
  }

  /** A position's supplied and borrowed amounts do not fall when the share prices do not. */
  lemma PricesLiftValues(m: MarketState, a: MarketState, p: MarketPosition, price: int)
    requires m.Valid() && a.Valid() && p.Valid()
    requires a.totalBorrowShares == m.totalBorrowShares && a.totalBorrowAssets >= m.totalBorrowAssets
    requires (m.totalSupplyAssets + 1) * (a.totalSupplyShares + VIRTUAL_SHARES)
             <= (a.totalSupplyAssets + 1) * (m.totalSupplyShares + VIRTUAL_SHARES)
    ensures MarketPositionValues(m, p, price).supplied <= MarketPositionValues(a, p, price).supplied
    ensures MarketPositionValues(m, p, price).borrowed <= MarketPositionValues(a, p, price).borrowed
  {
    RatioFloorMono(p.supplyShares, m.totalSupplyAssets + 1, m.totalSupplyShares + VIRTUAL_SHARES,
                   a.totalSupplyAssets + 1, a.totalSupplyShares + VIRTUAL_SHARES);
    MulMono(m.totalBorrowAssets + 1, a.totalBorrowAssets + 1, p.borrowShares);
    CeilMono(p.borrowShares * (m.totalBorrowAssets + 1), p.borrowShares * (a.totalBorrowAssets + 1),
             m.totalBorrowShares + VIRTUAL_SHARES);
  }

  // ----- Whole accrual histories -----

  datatype Accrual = Accrual(rate: nat, timestamp: int)

  function AccrueAll(m: MarketState, steps: seq<Accrual>): (a: MarketState)
    requires m.Valid()
    ensures a.Valid()
    decreases |steps|
  {
    if |steps| == 0 then m else
      AccrualStep(m, steps[0].rate, steps[0].timestamp);
      AccrueAll(AccrueMarket(m, steps[0].rate, steps[0].timestamp), steps[1..])
  }

  /**
   * Over any sequence of accruals no lender's supply and no borrower's debt ever falls in
   * value, and the assets lent out grow by exactly what is owed: supply minus borrow is conserved,
   * however many fee shares were minted.
   */
  lemma {:induction false} AccrualNeverLowersValues(m: MarketState, steps: seq<Accrual>, p: MarketPosition, price: int)
    requires m.Valid() && p.Valid()
    ensures var a := AccrueAll(m, steps);
            && MarketPositionValues(m, p, price).supplied <= MarketPositionValues(a, p, price).supplied
            && MarketPositionValues(m, p, price).borrowed <= MarketPositionValues(a, p, price).borrowed
            && a.totalSupplyAssets - a.totalBorrowAssets == m.totalSupplyAssets - m.totalBorrowAssets
            && a.totalBorrowShares == m.totalBorrowShares
    decreases |steps|
  {
    if |steps| > 0 {
      var next := AccrueMarket(m, steps[0].rate, steps[0].timestamp);
      AccrualStep(m, steps[0].rate, steps[0].timestamp);
      PricesLiftValues(m, next, p, price);
      AccrualNeverLowersValues(next, steps[1..], p, price);
    }
  }

  /** The fee recipient's new shares are worth at most the fee, and they take nothing from earlier lenders. */
  lemma FeeSharesWorthAtMostFee(m: MarketState, rate: nat, timestamp: int)
    requires m.Valid() && timestamp > m.lastUpdate
    ensures var a := AccrueMarket(m, rate, timestamp);
            var minted := a.totalSupplyShares - m.totalSupplyShares;
            var fee := (a.totalBorrowAssets - m.totalBorrowAssets) * m.fee / WAD;
            && 0 <= minted
            && MarketPositionValues(a, MarketPosition(minted, 0, 0), 0).supplied <= fee
  {
    InterestBounds(m, rate, timestamp);
    var a := AccrueMarket(m, rate, timestamp);
    var interest := m.totalBorrowAssets * Growth(rate * (timestamp - m.lastUpdate)) / WAD;
    var fee := interest * m.fee / WAD;
    var Y := m.totalSupplyShares + VIRTUAL_SHARES;
    FeeSharesKeepPrice(m.totalSupplyAssets, Y, interest, fee);
    var minted := a.totalSupplyShares - m.totalSupplyShares;
    FloorBelow(minted * (a.totalSupplyAssets + 1), Y + minted, fee);
  }

  /**
   * The fee is paid in full up to rounding: the shares minted are exactly the most whose worth in
   * the grown pool does not exceed the fee.
   */
  lemma FeeSharesExact(m: MarketState, rate: nat, timestamp: int, k: nat)
    requires m.Valid() && timestamp > m.lastUpdate
    ensures var a := AccrueMarket(m, rate, timestamp);
            var fee := (a.totalBorrowAssets - m.totalBorrowAssets) * m.fee / WAD;
            k * (a.totalSupplyAssets + 1) <= fee * (m.totalSupplyShares + k + VIRTUAL_SHARES)
            <==> k <= a.totalSupplyShares - m.totalSupplyShares
  {
    InterestBounds(m, rate, timestamp);
    var a := AccrueMarket(m, rate, timestamp);
    var interest := m.totalBorrowAssets * Growth(rate * (timestamp - m.lastUpdate)) / WAD;
    MostWithinFee(a.totalSupplyAssets + 1, m.totalSupplyShares + VIRTUAL_SHARES, interest * m.fee / WAD, k);
  }

  lemma MostWithinFee(total: int, Y: int, fee: int, k: int)
    requires fee < total
    ensures k * total <= fee * (Y + k) <==> k <= fee * Y / (total - fee)
  {
    FloorLe(fee * Y, total - fee, k);
    assert k * total == k * (total - fee) + k * fee;
    assert fee * (Y + k) == fee * Y + k * fee;
  }

  /**
   * The compounded growth is the third-order Taylor polynomial x + x^2/2 + x^3/6 of e^x - 1 (both
   * sides scaled by 6 WAD^2), short of it by the two divisions' rounding only.
   */
  lemma GrowthIsTaylor(x: nat)
    ensures var scale, taylor := 6 * WAD * WAD, 6 * WAD * WAD * x + 3 * WAD * x * x + x * x * x;
            scale * Growth(x) <= taylor <= scale * (Growth(x) + 2) + 2 * WAD * x
  {
    TaylorRaw(x, WAD, x * x / (2 * WAD), x * x / (2 * WAD) * x / (3 * WAD), x * x % (2 * WAD), x * x / (2 * WAD) * x % (3 * WAD));
  }

  lemma TaylorRaw(x: nat, w: nat, s: int, t: int, r2: int, r3: int)
    requires x * x == s * (2 * w) + r2 && 0 <= r2 <= 2 * w
    requires s * x == t * (3 * w) + r3 && 0 <= r3 <= 3 * w
    ensures var scale, taylor := 6 * w * w, 6 * w * w * x + 3 * w * x * x + x * x * x;
            scale * (x + s + t) <= taylor <= scale * (x + s + t + 2) + 2 * w * x
  {
    SecondTerm(x, w, s, r2);
    ThirdTerm(x, w, s, t, r2, r3);
    LostToRounding(x, w, r2, r3);
    var c := 6 * w * w;
    assert c * (x + s + t) == c * x + c * s + c * t;
    assert c * (x + s + t + 2) == c * (x + s + t) + 2 * c;
  }

  lemma SecondTerm(x: int, w: int, s: int, r2: int)
    requires x * x == s * (2 * w) + r2
    ensures 3 * w * x * x == 6 * w * w * s + 3 * w * r2
  {
    assert 3 * w * x * x == 3 * w * (x * x);
    assert 3 * w * (s * (2 * w) + r2) == 6 * w * w * s + 3 * w * r2;
  }

  lemma ThirdTerm(x: int, w: int, s: int, t: int, r2: int, r3: int)
    requires x * x == s * (2 * w) + r2 && s * x == t * (3 * w) + r3
    ensures x * x * x == 6 * w * w * t + 2 * w * r3 + r2 * x
  {
    assert (s * (2 * w) + r2) * x == (s * x) * (2 * w) + r2 * x;
    assert (t * (3 * w) + r3) * (2 * w) == 6 * w * w * t + 2 * w * r3;
  }

  lemma LostToRounding(x: nat, w: nat, r2: int, r3: int)
    requires 0 <= r2 <= 2 * w && 0 <= r3 <= 3 * w
    ensures 0 <= 3 * w * r2 + 2 * w * r3 + r2 * x <= 2 * (6 * w * w) + 2 * w * x
  {
    MulMono2(0, r2, 0, 3 * w);
    MulMono(r2, 2 * w, 3 * w);
    MulMono2(0, r3, 0, 2 * w);
    MulMono(r3, 3 * w, 2 * w);
    MulMono2(0, r2, 0, x);
    MulMono(r2, 2 * w, x);
    assert 2 * w * (3 * w) == 6 * w * w && 3 * w * (2 * w) == 6 * w * w;
  }

  /** The interest charged is the floor of the debts' growth, added to both sides of the market at the new stamp. */
  lemma InterestExact(m: MarketState, rate: nat, timestamp: int)
    requires m.Valid()
    ensures var a := AccrueMarket(m, rate, timestamp);
            var interest := a.totalBorrowAssets - m.totalBorrowAssets;
            if timestamp <= m.lastUpdate then a == m
            else && interest * WAD <= m.totalBorrowAssets * Growth(rate * (timestamp - m.lastUpdate)) < (interest + 1) * WAD
                 && a.totalSupplyAssets == m.totalSupplyAssets + interest && a.lastUpdate == timestamp
  {
    if timestamp > m.lastUpdate {
      var n := m.totalBorrowAssets * Growth(rate * (timestamp - m.lastUpdate));
      FloorLe(n, WAD, n / WAD);
      FloorLe(n, WAD, n / WAD + 1);
    }
  }

  /** Debts do not fall behind: a longer accrual at the same rate owes no less. */
  lemma LongerAccrualOwesMore(m: MarketState, rate: nat, timestamp: int, later: int)
    requires m.Valid() && timestamp <= later
    ensures AccrueMarket(m, rate, timestamp).totalBorrowAssets <= AccrueMarket(m, rate, later).totalBorrowAssets
  {
    AccrualStep(m, rate, later);
    if timestamp > m.lastUpdate {
      var first, longer := rate * (timestamp - m.lastUpdate), rate * (later - m.lastUpdate);
      MulMono2(rate, rate, timestamp - m.lastUpdate, later - m.lastUpdate);
      GrowthMonotone(first, longer);
      MulMono2(m.totalBorrowAssets, m.totalBorrowAssets, Growth(first), Growth(longer));
      DivMono(m.totalBorrowAssets * Growth(first), m.totalBorrowAssets * Growth(longer), WAD);
    }
  }

  /**
   * Every figure shown for a position, by what it bounds: what is supplied, the collateral's value and
   * the liquidation debt are the most, the debt the least that the shares, the price and the
   * liquidation threshold allow.
   */
  lemma ValuesExact(m: MarketState, p: MarketPosition, price: int, q: int)
    requires m.Valid()
    ensures var v := MarketPositionValues(m, p, price);
            && (q <= v.supplied <==> q * (m.totalSupplyShares + VIRTUAL_SHARES) <= p.supplyShares * (m.totalSupplyAssets + 1))
            && (v.borrowed <= q <==> p.borrowShares * (m.totalBorrowAssets + 1) <= q * (m.totalBorrowShares + VIRTUAL_SHARES))
            && (q <= v.collateralValue <==> q * ORACLE_SCALE <= p.collateral * price)
            && (q <= v.liquidationDebt <==> q * WAD <= v.collateralValue * LLTV)
  {
    var v := MarketPositionValues(m, p, price);
    FloorLe(p.supplyShares * (m.totalSupplyAssets + 1), m.totalSupplyShares + VIRTUAL_SHARES, q);
    CeilLe(p.borrowShares * (m.totalBorrowAssets + 1), m.totalBorrowShares + VIRTUAL_SHARES, q);
    FloorLe(p.collateral * price, ORACLE_SCALE, q);
    FloorLe(v.collateralValue * LLTV, WAD, q);
  }

  /** A positive amount can be borrowed exactly when it leaves the debt below liquidation and the market solvent. */
  lemma AvailableExact(m: MarketState, p: MarketPosition, price: int, q: int)
    requires m.Valid() && 0 < q
    ensures var v := MarketPositionValues(m, p, price);
            && (q <= v.liquidity <==> m.totalBorrowAssets + q <= m.totalSupplyAssets)
            && (q <= v.borrowAvailable <==> v.borrowed + q <= v.liquidationDebt && m.totalBorrowAssets + q <= m.totalSupplyAssets)
            && (v.ltvBps.Some? <==> 0 < v.collateralValue)
            && (v.ltvBps.Some? ==> (v.ltvBps.value <= q <==> v.borrowed * BPS <= q * v.collateralValue))
  {
    var v := MarketPositionValues(m, p, price);
    if v.ltvBps.Some? {
      CeilLe(v.borrowed * BPS, v.collateralValue, q);
    }
  }
}
