/**
 * What the page offers before a signature: post-action positions, the repayment quote and the
 * largest collateral withdrawal and borrow that keep a position inside the 80% buffer.
 */
module MorphoMarketActions {
  import opened Arith
  import opened MorphoMarket
  import opened Wrappers

  const MARKET_BUFFER_LTV_BPS: int := 8_000
  const REPAY_INTEREST_SECONDS: int := 300

  datatype MarketAction = Supply | Withdraw | SupplyCollateral | WithdrawCollateral | Borrow | Repay

  datatype Account = Account(position: MarketPosition, values: PositionValues)

  datatype Snapshot = Snapshot(
    market: MarketState, projectedMarket: MarketState, price: int,
    projectionSeconds: nat, liquidity: int, account: Option<Account>)
  {
    // The unsigned on-chain reads a snapshot is made of.
    predicate Valid() {
      && market.Valid() && projectedMarket.Valid() && 0 <= price
      && (account.Some? ==>
            && account.value.position.Valid()
            && 0 <= account.value.values.borrowed && 0 <= account.value.values.collateralValue)
    }

    // What one reading of the market makes of an account: its values are the market's own, and
    // it owes no more borrow shares than the market counts.
    predicate Consistent() {
      && Valid() && account.Some?
      && account.value.values == MarketPositionValues(market, account.value.position, price)
      && account.value.position.borrowShares <= market.totalBorrowShares
    }
  }

  function RepaymentRequired(s: Snapshot): int
    requires s.Valid()
  {
    if s.account.None? || s.account.value.position.borrowShares == 0 then 0
    else MarketPositionValues(s.projectedMarket, s.account.value.position, s.price).borrowed + 2
  }

  /** The market and the position after an action, or nothing when the page refuses to preview it. */
  function PostActionState(action: MarketAction, amount: int, all: bool, s: Snapshot): Option<(MarketState, MarketPosition)>
    requires s.Valid()
  {
    if s.account.None? || amount < 0 then None else
      var market, position := s.market, s.account.value.position;
      match action
      case Borrow =>
        var shares := CeilDiv(amount * (market.totalBorrowShares + VIRTUAL_SHARES), market.totalBorrowAssets + 1);
        Some((market.(totalBorrowAssets := market.totalBorrowAssets + amount,
                      totalBorrowShares := market.totalBorrowShares + shares),
              position.(borrowShares := position.borrowShares + shares)))
      case WithdrawCollateral =>
        if amount > position.collateral then None
        else Some((market, position.(collateral := position.collateral - amount)))
      case Repay =>
        var shares := if all then position.borrowShares
                      else amount * (market.totalBorrowShares + VIRTUAL_SHARES) / (market.totalBorrowAssets + 1);
        if shares > position.borrowShares then None else
          var assets := if all then s.account.value.values.borrowed else amount;
          Some((market.(totalBorrowAssets := market.totalBorrowAssets - assets,
                        totalBorrowShares := market.totalBorrowShares - shares),
                position.(borrowShares := position.borrowShares - shares)))
      case _ => Some((market, position))
  }

  // The borrow-share total after the action is the denominator of the new debt; the contract's
  // own accounting (no position owes more shares than the market) keeps it non-negative.
  predicate SharesCovered(s: Snapshot) {
    s.account.Some? ==> s.account.value.position.borrowShares <= s.market.totalBorrowShares
  }

  lemma PostActionDenominators(action: MarketAction, amount: int, all: bool, s: Snapshot)
    requires s.Valid() && SharesCovered(s)
    ensures var r := PostActionState(action, amount, all, s);
            r.Some? ==> 0 <= r.value.0.totalSupplyShares && 0 <= r.value.0.totalBorrowShares && r.value.1.Valid()
  {
    if s.account.Some? && amount >= 0 {
      var Y, X := s.market.totalBorrowShares + VIRTUAL_SHARES, s.market.totalBorrowAssets + 1;
      MulMono2(0, amount, 0, Y);
      CeilNonNegative(amount * Y, X);
      FloorLe(amount * Y, X, 0);
    }
  }

  function PostActionValues(action: MarketAction, amount: int, all: bool, s: Snapshot): Option<PositionValues>
    requires s.Valid() && SharesCovered(s)
  {
    PostActionDenominators(action, amount, all, s);
    var r := PostActionState(action, amount, all, s);
    if r.None? then None else Some(MarketPositionValues(r.value.0, r.value.1, s.price))
  }

  predicate WithinMarketBuffer(borrowed: int, collateralValue: int) {
    borrowed * BPS <= collateralValue * MARKET_BUFFER_LTV_BPS
  }

  function MaximumHorizonInterest(assets: int, projectionSeconds: nat): int {
    CeilDiv(assets * Growth(MAX_MARKET_RATE * projectionSeconds), WAD)
  }

  function ForwardDebt(s: Snapshot): int
    requires s.Valid() && s.account.Some?
  {
    Max(s.account.value.values.borrowed, RepaymentRequired(s))
  }

  // ===== Collateral =====

  function SafeCollateralMaximum(s: Snapshot): int
    requires s.Valid()
  {
    if s.account.None? then 0 else
      var a := s.account.value;
      if a.position.borrowShares == 0 then a.position.collateral
      else if s.price == 0 then 0
      else
        var valueNeeded := CeilDiv(ForwardDebt(s) * BPS, MARKET_BUFFER_LTV_BPS);
        var collateralNeeded := CeilDiv(valueNeeded * ORACLE_SCALE, s.price);
        if a.position.collateral > collateralNeeded then a.position.collateral - collateralNeeded else 0
  }

  /** Withdrawing `w` keeps the larger of today's and the forward debt within 80% of what remains. */
  predicate WithdrawalKeepsBuffer(s: Snapshot, w: int)
    requires s.Valid() && s.account.Some?
  {
    WithinMarketBuffer(ForwardDebt(s), (s.account.value.position.collateral - w) * s.price / ORACLE_SCALE)
  }

  /**
   * For an account with debt the maximum is exact in both directions: a withdrawal of at least one
   * unit is safe if and only if it does not exceed the maximum.
   */
  lemma SafeCollateralExact(s: Snapshot, w: int)
    requires s.Valid() && s.account.Some? && s.account.value.position.borrowShares > 0
    requires 1 <= w <= s.account.value.position.collateral
    ensures WithdrawalKeepsBuffer(s, w) <==> w <= SafeCollateralMaximum(s)
  {
    var kept := s.account.value.position.collateral - w;
    var debt := ForwardDebt(s);
    var borrowShares := s.account.value.position.borrowShares;
    MulMono2(0, borrowShares, 0, s.projectedMarket.totalBorrowAssets + 1);
    CeilNonNegative(borrowShares * (s.projectedMarket.totalBorrowAssets + 1),
                    s.projectedMarket.totalBorrowShares + VIRTUAL_SHARES);
    assert debt >= 2;
    if s.price > 0 {
      RetainedCollateralExact(debt, kept, s.price);
    } else {
      assert kept * s.price == 0;
    }
  }

  /** Two round-ups and one floored valuation compose to a single exact threshold. */
  lemma RetainedCollateralExact(debt: int, kept: int, price: int)
    requires price > 0
    ensures var valueNeeded := CeilDiv(debt * BPS, MARKET_BUFFER_LTV_BPS);
            WithinMarketBuffer(debt, kept * price / ORACLE_SCALE)
            <==> CeilDiv(valueNeeded * ORACLE_SCALE, price) <= kept
  {
    var value := kept * price / ORACLE_SCALE;
    var valueNeeded := CeilDiv(debt * BPS, MARKET_BUFFER_LTV_BPS);
    CeilLe(debt * BPS, MARKET_BUFFER_LTV_BPS, value);
    FloorLe(kept * price, ORACLE_SCALE, valueNeeded);
    CeilLe(valueNeeded * ORACLE_SCALE, price, kept);
  }

  // ===== Borrowing =====

  /** The debt the search charges one candidate amount with. */
  function Charged(s: Snapshot, amount: nat): int
    requires s.Valid() && SharesCovered(s) && s.account.Some?
  {
    var borrowed := PostActionValues(Borrow, amount, false, s).value.borrowed;
    borrowed + ForwardDebt(s) - s.account.value.values.borrowed + MaximumHorizonInterest(borrowed, s.projectionSeconds) + 2
  }

  /** The check the search makes on one candidate amount. */
  predicate BorrowPasses(s: Snapshot, amount: nat)
    requires s.Valid() && SharesCovered(s) && s.account.Some?
  {
    WithinMarketBuffer(Charged(s, amount), PostActionValues(Borrow, amount, false, s).value.collateralValue)
  }

  function BorrowCeiling(s: Snapshot): int
    requires s.Valid() && s.account.Some?
  {
    var capacity := s.account.value.values.collateralValue * MARKET_BUFFER_LTV_BPS / BPS - ForwardDebt(s);
    Min(capacity, s.liquidity)
  }

  /** Debt after borrowing `amount`, in the position's and the market's raw totals. */
  function DebtAfter(shares: int, X: int, Y: int, amount: int): int
    requires 0 < X && 0 < Y && 0 <= amount
  {
    CeilNonNegativeMinted(amount, X, Y);
    var minted := CeilDiv(amount * Y, X);
    CeilDiv((shares + minted) * (X + amount), Y + minted)
  }

  lemma CeilNonNegativeMinted(amount: int, X: int, Y: int)
    requires 0 < X && 0 < Y && 0 <= amount
    ensures 0 <= CeilDiv(amount * Y, X)
  {
    MulMono2(0, amount, 0, Y);
    CeilNonNegative(amount * Y, X);
  }

  lemma BorrowedIsDebtAfter(s: Snapshot, amount: nat)
    requires s.Valid() && SharesCovered(s) && s.account.Some?
    ensures PostActionValues(Borrow, amount, false, s).Some?
    ensures PostActionValues(Borrow, amount, false, s).value.borrowed
            == DebtAfter(s.account.value.position.borrowShares, s.market.totalBorrowAssets + 1,
                         s.market.totalBorrowShares + VIRTUAL_SHARES, amount)
  {
    CeilNonNegativeMinted(amount, s.market.totalBorrowAssets + 1, s.market.totalBorrowShares + VIRTUAL_SHARES);
  }

  /** Raw debt does not fall when the amount borrowed or the shares minted grow. */
  lemma DebtMonotoneRaw(p: int, X: int, Y: int, a: int, m: int, a': int, m': int)
    requires 0 <= p <= Y && 0 < X && 0 < Y && 0 <= a <= a' && 0 <= m <= m'
    ensures CeilDiv((p + m) * (X + a), Y + m) <= CeilDiv((p + m') * (X + a'), Y + m')
  {
    var q := CeilDiv((p + m') * (X + a'), Y + m');
    CeilLe((p + m') * (X + a'), Y + m', q);
    var n, n' := p + m, p + m';
    SharesRatioGrows(p, Y, m, m');
    MulMono2(n, n, X + a, X + a');
    MulMono(n * (X + a), n * (X + a'), Y + m');
    MulMono(n * (Y + m'), n' * (Y + m), X + a');
    MulMono(n' * (X + a'), q * (Y + m'), Y + m);
    RegroupThree(n, X + a', Y + m');
    RegroupThree(n', X + a', Y + m);
    RegroupThree(q, Y + m', Y + m);
    CancelLe(n * (X + a), q * (Y + m), Y + m');
    CeilLe(n * (X + a), Y + m, q);
  }

  /** A larger share count owns a larger part of the pool it is minted into. */
  lemma SharesRatioGrows(p: int, Y: int, m: int, m': int)
    requires 0 <= p <= Y && 0 <= m <= m'
    ensures (p + m) * (Y + m') <= (p + m') * (Y + m)
  {
    MulMono2(0, m' - m, 0, Y - p);
    assert (p + m') * (Y + m) - (p + m) * (Y + m') == (m' - m) * (Y - p);
  }

  lemma RegroupThree(x: int, y: int, z: int)
    ensures x * y * z == x * z * y
  {
    assert x * y * z == (x * z) * y;
  }

  /** Post-borrow debt is monotone in the amount. */
  lemma DebtAfterMonotone(p: int, X: int, Y: int, a: int, a': int)
    requires 0 <= p <= Y && 0 < X && 0 < Y && 0 <= a <= a'
    ensures DebtAfter(p, X, Y, a) <= DebtAfter(p, X, Y, a')
  {
    CeilNonNegativeMinted(a, X, Y);
    MulMono(a, a', Y);
    CeilMono(a * Y, a' * Y, X);
    DebtMonotoneRaw(p, X, Y, a, CeilDiv(a * Y, X), a', CeilDiv(a' * Y, X));
  }

  /** Borrowing `a` raises the debt by at least `a`. */
  lemma DebtAfterRises(p: int, X: int, Y: int, a: int)
    requires 0 <= p <= Y && 0 < X && 0 < Y && 0 <= a
    ensures CeilDiv(p * X, Y) + a <= DebtAfter(p, X, Y, a)
  {
    CeilNonNegativeMinted(a, X, Y);
    var m := CeilDiv(a * Y, X);
    CeilLe(a * Y, X, m);
    var q := DebtAfter(p, X, Y, a);
    CeilLe((p + m) * (X + a), Y + m, q);
    DebtRisesRaw(p, X, Y, a, m, q);
    CeilLe(p * X, Y, q - a);
  }

  lemma DebtRisesRaw(p: int, X: int, Y: int, a: int, m: int, q: int)
    requires 0 <= p <= Y && 0 < Y && 0 <= m && a * Y <= m * X
    requires (p + m) * (X + a) <= q * (Y + m)
    ensures p * X <= (q - a) * Y
  {
    // (p X + a Y)(Y + m) <= (p + m)(X + a) Y, the difference being (m X - a Y)(Y - p)
    var debt, total := (p + m) * (X + a), p * X + a * Y;
    DebtRiseIdentity(p, X, Y, a, m);
    assert debt * Y - total * (Y + m) >= 0 by {
      MulMono2(0, m * X - a * Y, 0, Y - p);
    }
    MulMono(debt, q * (Y + m), Y);
    assert q * (Y + m) * Y == q * Y * (Y + m);
    CancelLe(total, q * Y, Y + m);
    assert (q - a) * Y == q * Y - a * Y;
  }

  /** Accrued interest of at most `g / WAD` on the whole market is covered by that share of the debt, rounded up. */
  lemma HorizonCoversRaw(shares: int, X: int, Y: int, interest: int, g: int)
    requires 0 <= shares && 0 < X && 0 < Y && 0 <= interest && 0 <= g && interest * WAD <= X * g
    ensures var debt := CeilDiv(shares * X, Y);
            CeilDiv(shares * (X + interest), Y) <= debt + CeilDiv(debt * g, WAD)
  {
    var debt := CeilDiv(shares * X, Y);
    var extra := CeilDiv(debt * g, WAD);
    CeilLe(shares * X, Y, debt);
    CeilLe(debt * g, WAD, extra);
    // shares * interest * WAD <= shares * X * g <= debt * Y * g <= extra * WAD * Y
    MulMono(interest * WAD, X * g, shares);
    MulMono(shares * X, debt * Y, g);
    MulMono(debt * g, extra * WAD, Y);
    assert interest * WAD * shares == shares * interest * WAD;
    assert X * g * shares == shares * X * g;
    assert debt * Y * g == debt * g * Y;
    assert extra * WAD * Y == extra * Y * WAD;
    CancelLe(shares * interest, extra * Y, WAD);
    assert shares * (X + interest) == shares * X + shares * interest;
    assert (debt + extra) * Y == debt * Y + extra * Y;
    CeilLe(shares * (X + interest), Y, debt + extra);
  }

  lemma HorizonInterestMonotone(a: int, a': int, seconds: nat)
    requires 0 <= a <= a'
    ensures 0 <= MaximumHorizonInterest(a, seconds) <= MaximumHorizonInterest(a', seconds)
  {
    var first := MAX_MARKET_RATE * seconds;
    MulMono2(0, MAX_MARKET_RATE, 0, seconds);
    GrowthMonotone(first, first);
    MulMono2(a, a', Growth(first), Growth(first));
    CeilMono(a * Growth(first), a' * Growth(first), WAD);
    CeilNonNegative(a * Growth(first), WAD);
  }

  /** Accrual at no more than the ceiling rate and horizon grows the market by at most the horizon's growth. */
  lemma AccrualWithinHorizon(m: MarketState, rate: nat, timestamp: int, seconds: nat)
    requires m.Valid() && rate <= MAX_MARKET_RATE && timestamp - m.lastUpdate <= seconds
    ensures var a := AccrueMarket(m, rate, timestamp);
            && 0 <= a.totalBorrowAssets - m.totalBorrowAssets
            && 0 <= Growth(MAX_MARKET_RATE * seconds)
            && (a.totalBorrowAssets - m.totalBorrowAssets) * WAD <= m.totalBorrowAssets * Growth(MAX_MARKET_RATE * seconds)
  {
    AccrualStep(m, rate, timestamp);
    var top := MAX_MARKET_RATE * seconds;
    MulMono2(0, MAX_MARKET_RATE, 0, seconds);
    GrowthMonotone(0, top);
    MulMono2(0, m.totalBorrowAssets, 0, Growth(top));
    if timestamp > m.lastUpdate {
      var first := rate * (timestamp - m.lastUpdate);
      MulMono2(rate, MAX_MARKET_RATE, timestamp - m.lastUpdate, seconds);
      MulMono2(0, rate, 0, timestamp - m.lastUpdate);
      GrowthMonotone(first, top);
      MulMono2(m.totalBorrowAssets, m.totalBorrowAssets, Growth(first), Growth(top));
      var n := m.totalBorrowAssets * Growth(first);
      FloorLe(n, WAD, n / WAD);
    }
  }

  /** Passing the check is inherited by every smaller amount. */
  lemma BorrowPassesDownward(s: Snapshot, a: nat, a': nat)
    requires s.Valid() && SharesCovered(s) && s.account.Some? && a <= a' && BorrowPasses(s, a')
    ensures BorrowPasses(s, a)
  {
    BorrowedIsDebtAfter(s, a);
    BorrowedIsDebtAfter(s, a');
    var p, X, Y := s.account.value.position.borrowShares, s.market.totalBorrowAssets + 1, s.market.totalBorrowShares + VIRTUAL_SHARES;
    DebtAfterMonotone(p, X, Y, a, a');
    DebtNonNegative(p, X, Y, a);
    HorizonInterestMonotone(DebtAfter(p, X, Y, a), DebtAfter(p, X, Y, a'), s.projectionSeconds);
  }

  lemma DebtNonNegative(p: int, X: int, Y: int, a: int)
    requires 0 <= p && 0 < X && 0 < Y && 0 <= a
    ensures 0 <= DebtAfter(p, X, Y, a)
  {
    CeilNonNegativeMinted(a, X, Y);
    var m := CeilDiv(a * Y, X);
    MulMono2(0, p + m, 0, X + a);
    CeilNonNegative((p + m) * (X + a), Y + m);
  }

  /** A passing amount fits the buffer on top of the forward debt, with two units to spare. */
  lemma PassingFitsBuffer(s: Snapshot, a: nat)
    requires s.Consistent() && BorrowPasses(s, a)
    ensures WithinMarketBuffer(a + ForwardDebt(s) + 2, s.account.value.values.collateralValue)
  {
    ChargedCovers(s, a);
  }

  /** The charge covers the amount on top of the forward debt, with two units to spare. */
  lemma ChargedCovers(s: Snapshot, a: nat)
    requires s.Consistent()
    ensures a + ForwardDebt(s) + 2 <= Charged(s, a)
  {
    BorrowedIsDebtAfter(s, a);
    var p, X, Y := s.account.value.position.borrowShares, s.market.totalBorrowAssets + 1, s.market.totalBorrowShares + VIRTUAL_SHARES;
    DebtAfterRises(p, X, Y, a);
    DebtNonNegative(p, X, Y, a);
    HorizonInterestMonotone(DebtAfter(p, X, Y, a), DebtAfter(p, X, Y, a), s.projectionSeconds);
  }

  /** The `capacity` cut-off loses nothing: no amount above it passes. */
  lemma PassingFitsCapacity(s: Snapshot, a: nat)
    requires s.Consistent() && BorrowPasses(s, a)
    ensures a + 2 <= s.account.value.values.collateralValue * MARKET_BUFFER_LTV_BPS / BPS - ForwardDebt(s)
  {
    PassingFitsBuffer(s, a);
    FloorLe(s.account.value.values.collateralValue * MARKET_BUFFER_LTV_BPS, BPS, a + ForwardDebt(s) + 2);
  }

  /** The market and position as they stand once `amount` has been borrowed at this snapshot. */
  function Borrowed(s: Snapshot, amount: nat): (r: (MarketState, MarketPosition))
    requires s.Valid() && SharesCovered(s) && s.account.Some?
    ensures r.0.Valid() && r.1.Valid() && r.0.lastUpdate == s.market.lastUpdate
  {
    PostActionDenominators(Borrow, amount, false, s);
    PostActionState(Borrow, amount, false, s).value
  }

  // `interest` raw units cover what `debt` can grow by at the rate ceiling.
  predicate CoversGrowth(debt: int, seconds: nat, interest: nat) {
    debt * Growth(MAX_MARKET_RATE * seconds) <= interest * WAD
  }

  /** What the forward repayment adds to the debt of today; nothing without debt. */
  function ForwardRise(s: Snapshot): int
    requires s.Consistent()
  {
    var position := s.account.value.position;
    if position.borrowShares == 0 then 0
    else Max(MarketPositionValues(s.projectedMarket, position, s.price).borrowed + 2
             - MarketPositionValues(s.market, position, s.price).borrowed, 0)
  }

  function DebtOnceBorrowed(s: Snapshot, amount: nat): int
    requires s.Consistent()
  {
    MarketPositionValues(Borrowed(s, amount).0, Borrowed(s, amount).1, s.price).borrowed
  }

  /**
   * What the page promises of an amount, without its search: the debt once borrowed, what the forward
   * repayment adds, the ceiling-rate growth of that debt in whole units and two units of share
   * rounding together fit 80% of the collateral value.
   */
  ghost predicate Affordable(s: Snapshot, amount: nat)
    requires s.Consistent()
  {
    exists interest: nat :: CoversGrowth(DebtOnceBorrowed(s, amount), s.projectionSeconds, interest)
      && (DebtOnceBorrowed(s, amount) + ForwardRise(s) + interest + 2) * BPS
         <= s.account.value.position.collateral * s.price / ORACLE_SCALE * MARKET_BUFFER_LTV_BPS
  }

  /** The check passes exactly the affordable amounts. */
  lemma PassesExactlyAffordable(s: Snapshot, amount: nat)
    requires s.Consistent()
    ensures BorrowPasses(s, amount) <==> Affordable(s, amount)
  {
    var debt := DebtOnceBorrowed(s, amount);
    var least := MaximumHorizonInterest(debt, s.projectionSeconds);
    BorrowedIsDebtAfter(s, amount);
    DebtNonNegative(s.account.value.position.borrowShares, s.market.totalBorrowAssets + 1,
                    s.market.totalBorrowShares + VIRTUAL_SHARES, amount);
    HorizonInterestMonotone(debt, debt, s.projectionSeconds);
    ChargeSplits(s, amount);
    CeilLe(debt * Growth(MAX_MARKET_RATE * s.projectionSeconds), WAD, least);
    assert CoversGrowth(debt, s.projectionSeconds, least);
    if Affordable(s, amount) {
      var interest: nat :| CoversGrowth(debt, s.projectionSeconds, interest)
        && (debt + ForwardRise(s) + interest + 2) * BPS
           <= s.account.value.position.collateral * s.price / ORACLE_SCALE * MARKET_BUFFER_LTV_BPS;
      CeilLe(debt * Growth(MAX_MARKET_RATE * s.projectionSeconds), WAD, interest);
    }
  }

  lemma ChargeSplits(s: Snapshot, amount: nat)
    requires s.Consistent()
    ensures Charged(s, amount) == DebtOnceBorrowed(s, amount) + ForwardRise(s)
                                  + MaximumHorizonInterest(DebtOnceBorrowed(s, amount), s.projectionSeconds) + 2
    ensures PostActionValues(Borrow, amount, false, s).value.collateralValue
            == s.account.value.position.collateral * s.price / ORACLE_SCALE
  {
    ValuesNotNegative(s.market, s.account.value.position, s.price);
    if s.account.value.position.borrowShares == 0 {
      NoSharesNoDebt(s.market, s.account.value.position, s.price);
    }
  }

  lemma NoSharesNoDebt(market: MarketState, position: MarketPosition, price: int)
    requires market.Valid() && position.borrowShares == 0
    ensures MarketPositionValues(market, position, price).borrowed == 0
  {
    assert 0 * (market.totalBorrowAssets + 1) == 0;
  }

  /**
   * No account is quoted too little: an amount passes whenever the debt once borrowed, what the
   * forward repayment adds, that debt's ceiling-rate growth and three raw units fit the buffer.
   */
  lemma ThreeUnitsToSpare(s: Snapshot, amount: nat)
    requires s.Consistent()
    requires ((DebtOnceBorrowed(s, amount) + ForwardRise(s) + 3) * WAD
              + DebtOnceBorrowed(s, amount) * Growth(MAX_MARKET_RATE * s.projectionSeconds)) * BPS
             <= s.account.value.position.collateral * s.price / ORACLE_SCALE * MARKET_BUFFER_LTV_BPS * WAD
    ensures Affordable(s, amount)
  {
    var debt, value := DebtOnceBorrowed(s, amount), s.account.value.position.collateral * s.price / ORACLE_SCALE;
    var grown := debt * Growth(MAX_MARKET_RATE * s.projectionSeconds);
    var interest := CeilDiv(grown, WAD);
    BorrowedIsDebtAfter(s, amount);
    DebtNonNegative(s.account.value.position.borrowShares, s.market.totalBorrowAssets + 1,
                    s.market.totalBorrowShares + VIRTUAL_SHARES, amount);
    HorizonInterestMonotone(debt, debt, s.projectionSeconds);
    CeilLe(grown, WAD, interest);
    CeilLe(grown, WAD, interest - 1);
    assert CoversGrowth(debt, s.projectionSeconds, interest);
    WholeUnits(debt + ForwardRise(s), interest, grown, value);
  }

  lemma WholeUnits(debt: int, interest: int, grown: int, value: int)
    requires (interest - 1) * WAD < grown
    requires ((debt + 3) * WAD + grown) * BPS <= value * MARKET_BUFFER_LTV_BPS * WAD
    ensures (debt + interest + 2) * BPS <= value * MARKET_BUFFER_LTV_BPS
  {
    assert (debt + interest + 2) * WAD <= (debt + 3) * WAD + grown;
    CancelLe((debt + interest + 2) * BPS, value * MARKET_BUFFER_LTV_BPS, WAD);
  }

  /**
   * The largest borrow within the market's liquidity that passes the check, or 0 when none does.
   * The first two postconditions hold of any snapshot; on one consistent reading of the market
   * neither the bisection nor the `capacity` cut-off loses a passing amount.
   */
  method SafeBorrowMaximum(s: Snapshot) returns (amount: nat)
    requires s.Valid() && SharesCovered(s)
    ensures s.account.None? ==> amount == 0
    ensures amount > 0 ==> s.account.Some? && BorrowPasses(s, amount) && amount <= s.liquidity
    ensures s.account.Some? ==>
              forall a: nat :: amount < a <= BorrowCeiling(s) ==> !BorrowPasses(s, a)
    ensures s.Consistent() ==>
              forall a: nat :: amount < a <= s.liquidity ==> !BorrowPasses(s, a) && !Affordable(s, a)
    ensures s.Consistent() && amount > 0 ==> Affordable(s, amount)
  {
    if s.account.None? {
      return 0;
    }
    var low, high := 0, BorrowCeiling(s);
    if high > 0 {
      while low < high
        invariant 0 <= low <= high <= BorrowCeiling(s)
        invariant low > 0 ==> BorrowPasses(s, low)
        invariant high < BorrowCeiling(s) ==> !BorrowPasses(s, high + 1)
      {
        var middle := (low + high + 1) / 2;
        if BorrowPasses(s, middle) {
          low := middle;
        } else {
          high := middle - 1;
        }
      }
    }
    amount := low;
    forall a: nat | amount < a <= BorrowCeiling(s)
      ensures !BorrowPasses(s, a)
    {
      if BorrowPasses(s, a) {
        BorrowPassesDownward(s, amount + 1, a);
      }
    }
    forall a: nat | s.Consistent() && amount < a <= s.liquidity
      ensures !BorrowPasses(s, a) && !Affordable(s, a)
    {
      PassesExactlyAffordable(s, a);
      if BorrowPasses(s, a) {
        PassingFitsCapacity(s, a);
      }
    }
    if s.Consistent() {
      PassesExactlyAffordable(s, amount);
    }
  }

  /** A passing amount leaves room for the horizon's interest on the whole post-borrow debt. */
  lemma PassingCoversInterest(s: Snapshot, amount: nat)
    requires s.Valid() && SharesCovered(s) && s.account.Some? && BorrowPasses(s, amount)
    ensures var (market, position) := Borrowed(s, amount);
            var now := MarketPositionValues(market, position, s.price);
            WithinMarketBuffer(now.borrowed + MaximumHorizonInterest(now.borrowed, s.projectionSeconds) + 2, now.collateralValue)
  {
    var values := PostActionValues(Borrow, amount, false, s).value;
    var (market, position) := Borrowed(s, amount);
    assert values == MarketPositionValues(market, position, s.price);
    assert ForwardDebt(s) >= s.account.value.values.borrowed;
  }

  /** Any position's debt, accrued within the horizon, is at most today's plus `MaximumHorizonInterest` of it. */
  lemma DebtWithinHorizon(market: MarketState, position: MarketPosition, rate: nat, timestamp: int, seconds: nat, price: int)
    requires market.Valid() && position.Valid()
    requires rate <= MAX_MARKET_RATE && timestamp - market.lastUpdate <= seconds
    ensures AccrueMarket(market, rate, timestamp).Valid()
    ensures var debt := MarketPositionValues(market, position, price).borrowed;
            MarketPositionValues(AccrueMarket(market, rate, timestamp), position, price).borrowed
            <= debt + MaximumHorizonInterest(debt, seconds)
    ensures MarketPositionValues(AccrueMarket(market, rate, timestamp), position, price).collateralValue
            == MarketPositionValues(market, position, price).collateralValue
  {
    var a := AccrueMarket(market, rate, timestamp);
    AccrualStep(market, rate, timestamp);
    AccrualWithinHorizon(market, rate, timestamp, seconds);
    var g := Growth(MAX_MARKET_RATE * seconds);
    var interest := a.totalBorrowAssets - market.totalBorrowAssets;
    MulMono(market.totalBorrowAssets, market.totalBorrowAssets + 1, g);
    HorizonCoversRaw(position.borrowShares, market.totalBorrowAssets + 1, market.totalBorrowShares + VIRTUAL_SHARES, interest, g);
    assert a.totalBorrowAssets + 1 == market.totalBorrowAssets + 1 + interest;
  }

  lemma BufferSurvivesHorizon(market: MarketState, position: MarketPosition, rate: nat, timestamp: int, seconds: nat, price: int)
    requires market.Valid() && position.Valid()
    requires rate <= MAX_MARKET_RATE && timestamp - market.lastUpdate <= seconds
    requires var now := MarketPositionValues(market, position, price);
             WithinMarketBuffer(now.borrowed + MaximumHorizonInterest(now.borrowed, seconds) + 2, now.collateralValue)
    ensures AccrueMarket(market, rate, timestamp).Valid()
    ensures var later := MarketPositionValues(AccrueMarket(market, rate, timestamp), position, price);
            WithinMarketBuffer(later.borrowed, later.collateralValue)
  {
    DebtWithinHorizon(market, position, rate, timestamp, seconds, price);
  }

  /**
   * Safety over the horizon: an amount that passes the check, borrowed now, stays within the 80%
   * buffer after the borrowed-into market accrues at any rate up to the ceiling for any time up to
   * the projection.
   */
  lemma BorrowSurvivesHorizon(s: Snapshot, amount: nat, rate: nat, timestamp: int)
    requires s.Valid() && SharesCovered(s) && s.account.Some? && BorrowPasses(s, amount)
    requires rate <= MAX_MARKET_RATE && timestamp - s.market.lastUpdate <= s.projectionSeconds
    ensures var (market, position) := Borrowed(s, amount);
            var later := MarketPositionValues(AccrueMarket(market, rate, timestamp), position, s.price);
            WithinMarketBuffer(later.borrowed, later.collateralValue)
  {
    var (market, position) := Borrowed(s, amount);
    PassingCoversInterest(s, amount);
    BufferSurvivesHorizon(market, position, rate, timestamp, s.projectionSeconds, s.price);
  }

  /**
   * The quote also stays executable: borrowing the same amount later, in the market the snapshot's
   * own market has accrued into (at any rate up to the ceiling, within the projection), still leaves
   * the position within the buffer, at whatever share price the accrual produced.
   */
  lemma BorrowExecutableWithinHorizon(s: Snapshot, amount: nat, rate: nat, timestamp: int)
    requires s.Valid() && SharesCovered(s) && s.account.Some? && BorrowPasses(s, amount)
    requires rate <= MAX_MARKET_RATE && timestamp - s.market.lastUpdate <= s.projectionSeconds
    ensures AccrueMarket(s.market, rate, timestamp).Valid()
    ensures var accrued := AccrueMarket(s.market, rate, timestamp);
            var fresh' := s.(market := accrued);
            && SharesCovered(fresh')
            && var values := PostActionValues(Borrow, amount, false, fresh').value;
               WithinMarketBuffer(values.borrowed, values.collateralValue)
  {
    var accrued := AccrueMarket(s.market, rate, timestamp);
    AccrualStep(s.market, rate, timestamp);
    AccrualWithinHorizon(s.market, rate, timestamp, s.projectionSeconds);
    var fresh' := s.(market := accrued);
    BorrowedIsDebtAfter(s, amount);
    BorrowedIsDebtAfter(fresh', amount);
    LaterBorrowCovered(s.account.value.position.borrowShares, s.market.totalBorrowAssets + 1,
                       s.market.totalBorrowShares + VIRTUAL_SHARES, amount,
                       accrued.totalBorrowAssets - s.market.totalBorrowAssets,
                       Growth(MAX_MARKET_RATE * s.projectionSeconds));
  }

  lemma LaterBorrowCovered(p: int, X: int, Y: int, amount: int, interest: int, g: int)
    requires 0 <= p <= Y && 0 < X && 0 < Y && 0 <= amount && 0 <= interest && 0 <= g
    requires interest * WAD <= (X - 1) * g
    ensures var debt := DebtAfter(p, X, Y, amount);
            DebtAfter(p, X + interest, Y, amount) <= debt + CeilDiv(debt * g, WAD)
  {
    CeilNonNegativeMinted(amount, X, Y);
    CeilNonNegativeMinted(amount, X + interest, Y);
    var m, m' := CeilDiv(amount * Y, X), CeilDiv(amount * Y, X + interest);
    // a dearer market mints no more shares for the same amount
    CeilLe(amount * Y, X, m);
    MulMono2(0, m, X, X + interest);
    MulMono(X, X + interest, m);
    CeilLe(amount * Y, X + interest, m);
    DebtMonotoneRaw(p, X + interest, Y, amount, m', amount, m);
    MulMono(X - 1, X + amount, g);
    HorizonCoversRaw(p + m, X + amount, Y + m, interest, g);
    assert X + interest + amount == X + amount + interest;
  }

  // ===== Repaying =====

  /** The snapshot's account and market reread after an action. */
  function Reread(s: Snapshot, market: MarketState, position: MarketPosition): Snapshot
    requires market.Valid()
  {
    s.(market := market, account := Some(Account(position, MarketPositionValues(market, position, s.price))))
  }

  lemma ValuesNotNegative(market: MarketState, position: MarketPosition, price: nat)
    requires market.Valid() && position.Valid()
    ensures var values := MarketPositionValues(market, position, price);
            0 <= values.borrowed && 0 <= values.collateralValue
  {
    MulMono2(0, position.borrowShares, 0, market.totalBorrowAssets + 1);
    CeilNonNegative(position.borrowShares * (market.totalBorrowAssets + 1), market.totalBorrowShares + VIRTUAL_SHARES);
    MulMono2(0, position.collateral, 0, price);
    FloorLe(position.collateral * price, ORACLE_SCALE, 0);
  }

  /** Borrowing and repaying the same amount at once is accepted and never leaves a smaller debt. */
  lemma RepayingABorrowNeverGains(s: Snapshot, amount: nat)
    requires s.Consistent()
    ensures var (market, position) := Borrowed(s, amount);
            var again := Reread(s, market, position);
            && again.Consistent()
            && PostActionValues(Repay, amount, false, again).Some?
            && s.account.value.values.borrowed <= PostActionValues(Repay, amount, false, again).value.borrowed
  {
    var (market, position) := Borrowed(s, amount);
    ValuesNotNegative(market, position, s.price);
    var X, Y := s.market.totalBorrowAssets + 1, s.market.totalBorrowShares + VIRTUAL_SHARES;
    MintThenBurn(s.account.value.position.borrowShares, X, Y, amount);
    assert market.totalBorrowAssets + 1 == X + amount;
  }

  lemma MintThenBurn(p: int, X: int, Y: int, a: int)
    requires 0 <= p <= Y && 0 < X && 0 < Y && 0 <= a
    ensures var minted := CeilDiv(a * Y, X);
            && 0 <= minted
            && var burned := a * (Y + minted) / (X + a);
               && burned <= minted
               && CeilDiv(p * X, Y) <= CeilDiv((p + minted - burned) * X, Y + minted - burned)
  {
    CeilNonNegativeMinted(a, X, Y);
    var m := CeilDiv(a * Y, X);
    CeilLe(a * Y, X, m);
    assert a * (Y + m) <= m * (X + a);
    var burned := a * (Y + m) / (X + a);
    FloorBelow(a * (Y + m), X + a, m);
    DebtMonotoneRaw(p, X, Y, 0, 0, 0, m - burned);
  }

  /**
   * A partial repayment lowers the debt by the amount repaid, short of it by no more than one
   * share's worth (`k` raw units bound the share price).
   */
  lemma RepaymentLowersDebt(s: Snapshot, amount: nat, k: nat)
    requires s.Consistent() && PostActionState(Repay, amount, false, s).Some?
    requires s.market.totalBorrowAssets + 1 <= k * (s.market.totalBorrowShares + VIRTUAL_SHARES)
    ensures var before, after := s.account.value.values.borrowed, PostActionValues(Repay, amount, false, s).value.borrowed;
            before - amount <= after <= before - amount + k
  {
    var p, X, Y := s.account.value.position.borrowShares, s.market.totalBorrowAssets + 1, s.market.totalBorrowShares + VIRTUAL_SHARES;
    var b := amount * Y / X;
    FloorLe(amount * Y, X, b);
    FloorLe(amount * Y, X, b + 1);
    MulMono2(0, amount, 0, Y);
    FloorLe(amount * Y, X, 0);
    assert s.market.totalBorrowAssets - amount + 1 == X - amount;
    RepaidDebtRaw(p, X, Y, amount, b, k);
  }

  lemma RepaidDebtRaw(p: int, X: int, Y: int, a: int, b: int, k: int)
    requires 0 <= b <= p < Y && 0 < X <= k * Y && b * X <= a * Y <= (b + 1) * X
    ensures CeilDiv(p * X, Y) - a <= CeilDiv((p - b) * (X - a), Y - b) <= CeilDiv(p * X, Y) - a + k
  {
    RepaidNotTooMuch(p, X, Y, a, b);
    RepaidEnough(p, X, Y, a, b, k);
  }

  lemma RepaidNotTooMuch(p: int, X: int, Y: int, a: int, b: int)
    requires 0 <= b <= p < Y && b * X <= a * Y
    ensures CeilDiv(p * X, Y) - a <= CeilDiv((p - b) * (X - a), Y - b)
  {
    var left := (p - b) * (X - a);
    var after := CeilDiv(left, Y - b);
    CeilLe(left, Y - b, after);
    RepaidIdentity(p, X, Y, a, b);
    MulMono2(0, Y - p, 0, a * Y - b * X);
    MulMono(left, after * (Y - b), Y);
    CollectTwo(after, a, Y, Y - b);
    CancelLe(p * X, (after + a) * Y, Y - b);
    CeilLe(p * X, Y, after + a);
  }

  lemma CollectTwo(after: int, a: int, y: int, z: int)
    ensures (after + a) * y * z == after * z * y + a * y * z
  {
  }

  lemma RepaidEnough(p: int, X: int, Y: int, a: int, b: int, k: int)
    requires 0 <= b <= p < Y && 0 < X <= k * Y && b * X <= a * Y <= (b + 1) * X
    ensures CeilDiv((p - b) * (X - a), Y - b) <= CeilDiv(p * X, Y) - a + k
  {
    var before := CeilDiv(p * X, Y);
    var left := (p - b) * (X - a);
    CeilLe(p * X, Y, before);
    RepaidIdentity(p, X, Y, a, b);
    SurplusBelowShare(p, X, Y, a, b, k);
    MulMono(p * X, before * Y, Y - b);
    CollectThree(before, a, k, Y, Y - b);
    CancelLe(left, (before - a + k) * (Y - b), Y);
    CeilLe(left, Y - b, before - a + k);
  }

  lemma CollectThree(before: int, a: int, k: int, y: int, z: int)
    ensures (before - a + k) * z * y == before * y * z - a * y * z + k * y * z
  {
  }

  lemma RepaidIdentity(p: int, X: int, Y: int, a: int, b: int)
    ensures (p - b) * (X - a) * Y == p * X * (Y - b) - a * Y * (Y - b) + (Y - p) * (a * Y - b * X)
  {
  }

  lemma SurplusBelowShare(p: int, X: int, Y: int, a: int, b: int, k: int)
    requires 0 <= b <= p < Y && 0 < X <= k * Y && b * X <= a * Y <= (b + 1) * X
    ensures (Y - p) * (a * Y - b * X) <= k * Y * (Y - b)
  {
    assert (b + 1) * X == b * X + X;
    MulMono2(Y - p, Y - b, a * Y - b * X, k * Y);
    assert (Y - b) * (k * Y) == k * Y * (Y - b);
  }

  /** Rounding always favours the pool: no action makes any other position owe more. */
  lemma OthersNeverOweMore(action: MarketAction, amount: int, all: bool, s: Snapshot, other: MarketPosition)
    requires s.Consistent() && other.Valid()
    ensures var r := PostActionState(action, amount, all, s);
            r.Some? ==>
              && 0 <= r.value.0.totalSupplyShares && 0 <= r.value.0.totalBorrowShares
              && MarketPositionValues(r.value.0, other, s.price).borrowed
                 <= MarketPositionValues(s.market, other, s.price).borrowed
  {
    PostActionDenominators(action, amount, all, s);
    var X, Y := s.market.totalBorrowAssets + 1, s.market.totalBorrowShares + VIRTUAL_SHARES;
    var r := PostActionState(action, amount, all, s);
    if r.Some? {
      PoolFavoured(action, amount, all, s);
      CheaperShares(other.borrowShares, X, Y, r.value.0.totalBorrowAssets + 1, r.value.0.totalBorrowShares + VIRTUAL_SHARES);
    }
  }

  lemma PoolFavoured(action: MarketAction, amount: int, all: bool, s: Snapshot)
    requires s.Consistent() && PostActionState(action, amount, all, s).Some?
    ensures var market := PostActionState(action, amount, all, s).value.0;
            (market.totalBorrowAssets + 1) * (s.market.totalBorrowShares + VIRTUAL_SHARES)
            <= (s.market.totalBorrowAssets + 1) * (market.totalBorrowShares + VIRTUAL_SHARES)
  {
    var p, X, Y := s.account.value.position.borrowShares, s.market.totalBorrowAssets + 1, s.market.totalBorrowShares + VIRTUAL_SHARES;
    match action {
      case Borrow =>
        var shares := CeilDiv(amount * Y, X);
        CeilLe(amount * Y, X, shares);
        MintingCheapens(X, Y, amount, shares);
      case Repay =>
        var shares := if all then p else amount * Y / X;
        var assets := if all then CeilDiv(p * X, Y) else amount;
        FloorLe(amount * Y, X, amount * Y / X);
        CeilLe(p * X, Y, CeilDiv(p * X, Y));
        BurningCheapens(X, Y, assets, shares);
      case _ =>
    }
  }

  lemma MintingCheapens(X: int, Y: int, assets: int, shares: int)
    requires assets * Y <= shares * X
    ensures (X + assets) * Y <= X * (Y + shares)
  {
  }

  lemma BurningCheapens(X: int, Y: int, assets: int, shares: int)
    requires shares * X <= assets * Y
    ensures (X - assets) * Y <= X * (Y - shares)
  {
  }

  lemma CheaperShares(o: int, X: int, Y: int, X': int, Y': int)
    requires 0 <= o && 0 < Y && 0 < Y' && X' * Y <= X * Y'
    ensures CeilDiv(o * X', Y') <= CeilDiv(o * X, Y)
  {
    var q := CeilDiv(o * X, Y);
    CeilLe(o * X, Y, q);
    MulMono(o * X, q * Y, Y');
    MulMono(X' * Y, X * Y', o);
    assert o * X' * Y == X' * Y * o && o * X * Y' == X * Y' * o;
    RegroupThree(q, Y, Y');
    CancelLe(o * X', q * Y', Y);
    CeilLe(o * X', Y', q);
  }

  /** The displayed loan-to-value, rounded up, is at most 80% exactly when the position is within the buffer. */
  lemma DisplayedLtvMatchesBuffer(market: MarketState, position: MarketPosition, price: nat)
    requires market.Valid() && position.Valid()
    ensures var values := MarketPositionValues(market, position, price);
            values.ltvBps.Some? ==>
              (values.ltvBps.value <= MARKET_BUFFER_LTV_BPS <==> WithinMarketBuffer(values.borrowed, values.collateralValue))
  {
    var values := MarketPositionValues(market, position, price);
    if values.ltvBps.Some? {
      CeilLe(values.borrowed * BPS, values.collateralValue, MARKET_BUFFER_LTV_BPS);
    }
  }

  // ===== Borrowing in the projected market =====

  /** How a snapshot was read: two accruals of one stored market state, at today's and at the horizon's rate. */
  datatype Reading = Reading(stored: MarketState, rate: nat, horizonRate: nat, timestamp: int)

  predicate ReadAs(s: Snapshot, r: Reading) {
    && s.Consistent() && r.stored.Valid()
    && REPAY_INTEREST_SECONDS <= r.stored.lastUpdate <= r.timestamp && s.projectionSeconds <= r.stored.lastUpdate
    && s.market == AccrueMarket(r.stored, r.rate, r.timestamp)
    && s.projectedMarket == AccrueMarket(r.stored, r.horizonRate, r.timestamp + s.projectionSeconds)
    && s.liquidity == s.market.totalSupplyAssets - s.market.totalBorrowAssets >= 0
  }

  // Accrual mints no borrow shares, so the two markets of a reading count the same.
  predicate SameShares(s: Snapshot) {
    s.Consistent() && s.projectedMarket.totalBorrowShares == s.market.totalBorrowShares
  }

  lemma ReadingSameShares(s: Snapshot, r: Reading)
    requires ReadAs(s, r)
    ensures SameShares(s)
  {
    AccrualStep(r.stored, r.rate, r.timestamp);
    AccrualStep(r.stored, r.horizonRate, r.timestamp + s.projectionSeconds);
  }

  /** The position's debt once `amount` is borrowed in the projected market. */
  function DebtAtProjection(s: Snapshot, amount: nat): int
    requires SameShares(s)
  {
    PostActionValues(Borrow, amount, false, s.(market := s.projectedMarket)).value.borrowed
  }

  /** Borrowing the amount in the projected market leaves the position within the buffer. */
  predicate HoldsAtProjection(s: Snapshot, amount: nat)
    requires SameShares(s)
  {
    WithinMarketBuffer(DebtAtProjection(s, amount), s.account.value.values.collateralValue)
  }

  /** The same reading of an account with other collateral, at another price. */
  function Secured(s: Snapshot, collateral: nat, price: nat): (t: Snapshot)
    requires SameShares(s)
    ensures SameShares(t)
  {
    var position := s.account.value.position.(collateral := collateral);
    ValuesNotNegative(s.market, position, price);
    s.(price := price, account := Some(Account(position, MarketPositionValues(s.market, position, price))))
  }

  /** What secures an account changes neither how it was read nor what it owes or is charged. */
  lemma SecuredKeeps(s: Snapshot, collateral: nat, price: nat, amount: nat)
    requires SameShares(s)
    ensures var t := Secured(s, collateral, price);
            && (forall r :: ReadAs(s, r) ==> ReadAs(t, r))
            && Charged(t, amount) == Charged(s, amount) && DebtAtProjection(t, amount) == DebtAtProjection(s, amount)
            && t.account.value.values.collateralValue == collateral * price / ORACLE_SCALE
  {
    var t := Secured(s, collateral, price);
    BorrowedIsDebtAfter(s, amount);
    BorrowedIsDebtAfter(t, amount);
    BorrowedIsDebtAfter(s.(market := s.projectedMarket), amount);
    BorrowedIsDebtAfter(t.(market := t.projectedMarket), amount);
  }

  /** Whatever secures the account, if the amount passes now it holds in the projected market. */
  ghost predicate QuoteHolds(s: Snapshot, amount: nat)
    requires SameShares(s)
  {
    forall collateral: nat, price: nat ::
      BorrowPasses(Secured(s, collateral, price), amount) ==> HoldsAtProjection(Secured(s, collateral, price), amount)
  }

  /** A charge for borrowing `amount` on top of `shares` covers the share rounding in the projected market. */
  predicate CoversRounding(projected: MarketState, shares: int, amount: nat, charge: int)
    requires projected.Valid()
  {
    var X, Y := projected.totalBorrowAssets + 1, projected.totalBorrowShares + VIRTUAL_SHARES;
    var minted := CeilDiv(amount * Y, X);
    (shares + minted) * (X + amount) <= charge * (Y + minted)
  }

  lemma CoveredIsEnough(s: Snapshot, amount: nat, charge: int)
    requires SameShares(s)
    ensures CoversRounding(s.projectedMarket, s.account.value.position.borrowShares, amount, charge)
            <==> DebtAtProjection(s, amount) <= charge
  {
    var p, X, Y := s.account.value.position.borrowShares, s.projectedMarket.totalBorrowAssets + 1,
                   s.projectedMarket.totalBorrowShares + VIRTUAL_SHARES;
    BorrowedIsDebtAfter(s.(market := s.projectedMarket), amount);
    CeilNonNegativeMinted(amount, X, Y);
    var minted := CeilDiv(amount * Y, X);
    CeilLe((p + minted) * (X + amount), Y + minted, charge);
  }

  /**
   * Exactly when a quote outlives the reads: with or without debt, whatever the two rates, an amount
   * that passes holds in the projected market for every collateral and price if and only if the
   * charge covers the projected share rounding.
   */
  lemma QuoteHoldsExactly(s: Snapshot, r: Reading, amount: nat)
    requires ReadAs(s, r)
    ensures SameShares(s) && forall collateral: nat, price: nat :: ReadAs(Secured(s, collateral, price), r)
    ensures QuoteHolds(s, amount)
            <==> CoversRounding(s.projectedMarket, s.account.value.position.borrowShares, amount, Charged(s, amount))
  {
    ReadingSameShares(s, r);
    forall collateral: nat, price: nat
      ensures ReadAs(Secured(s, collateral, price), r)
    {
      SecuredKeeps(s, collateral, price, amount);
    }
    CoveredIsEnough(s, amount, Charged(s, amount));
    if DebtAtProjection(s, amount) <= Charged(s, amount) {
      forall collateral: nat, price: nat | BorrowPasses(Secured(s, collateral, price), amount)
        ensures HoldsAtProjection(Secured(s, collateral, price), amount)
      {
        SecuredOutcome(s, collateral, price, amount);
      }
    } else {
      TightQuoteFails(s, amount);
    }
  }

  /** An account with just the collateral its charge needs has no slack for a larger debt. */
  lemma TightQuoteFails(s: Snapshot, amount: nat)
    requires SameShares(s) && Charged(s, amount) < DebtAtProjection(s, amount)
    ensures !QuoteHolds(s, amount)
  {
    ChargedCovers(s, amount);
    var collateral := CeilDiv(Charged(s, amount) * BPS, MARKET_BUFFER_LTV_BPS);
    TightCollateral(Charged(s, amount), DebtAtProjection(s, amount), collateral);
    SecuredOutcome(s, collateral, ORACLE_SCALE, amount);
    assert collateral * ORACLE_SCALE / ORACLE_SCALE == collateral;
    assert BorrowPasses(Secured(s, collateral, ORACLE_SCALE), amount);
  }

  lemma SecuredOutcome(s: Snapshot, collateral: nat, price: nat, amount: nat)
    requires SameShares(s)
    ensures var t, value := Secured(s, collateral, price), collateral * price / ORACLE_SCALE;
            && (BorrowPasses(t, amount) <==> WithinMarketBuffer(Charged(s, amount), value))
            && (HoldsAtProjection(t, amount) <==> WithinMarketBuffer(DebtAtProjection(s, amount), value))
  {
    SecuredKeeps(s, collateral, price, amount);
    SecuredPasses(Secured(s, collateral, price), amount);
  }

  /** The least collateral value a debt needs is enough for no larger one. */
  lemma TightCollateral(debt: int, larger: int, collateral: int)
    requires 0 <= debt && collateral == CeilDiv(debt * BPS, MARKET_BUFFER_LTV_BPS)
    ensures 0 <= collateral && WithinMarketBuffer(debt, collateral)
    ensures WithinMarketBuffer(larger, collateral) ==> larger <= debt
  {
  }

  lemma SecuredPasses(s: Snapshot, amount: nat)
    requires SameShares(s)
    ensures BorrowPasses(s, amount) <==> WithinMarketBuffer(Charged(s, amount), s.account.value.values.collateralValue)
  {
    BorrowedIsDebtAfter(s, amount);
  }

  // The snapshots of a position with `shares` borrow shares that project the given market.
  predicate Projects(s: Snapshot, projected: MarketState, shares: int) {
    SameShares(s) && s.projectedMarket == projected && s.account.value.position.borrowShares == shares
  }

  /** A snapshot that projects the market and charges the amount with the least any does: nothing is borrowed yet. */
  function Unborrowed(projected: MarketState, shares: nat, collateral: nat): (s: Snapshot)
    requires projected.Valid() && shares <= projected.totalBorrowShares
    ensures Projects(s, projected, shares) && s.account.value.values.collateralValue == collateral
  {
    var market, position := projected.(totalBorrowAssets := 0), MarketPosition(0, shares, collateral);
    ValuesNotNegative(market, position, ORACLE_SCALE);
    Snapshot(market, projected, ORACLE_SCALE, 0, 0, Some(Account(position, MarketPositionValues(market, position, ORACLE_SCALE))))
  }

  /** While one unit backs all shares, borrowing mints exactly in proportion. */
  lemma UnborrowedDebt(shares: nat, Y: nat, amount: nat)
    requires shares < Y
    ensures CeilDiv(shares * 1, Y) == if shares == 0 then 0 else 1
    ensures DebtAfter(shares, 1, Y, amount) == amount + if shares == 0 then 0 else 1
  {
    var owed := if shares == 0 then 0 else 1;
    CeilLe(shares, Y, owed);
    CeilLe(shares, Y, owed - 1);
    var minted := amount * Y;
    assert CeilDiv(amount * Y, 1) == minted;
    var n, d := (shares + minted) * (1 + amount), Y + minted;
    assert d == Y * (1 + amount) by { assert Y * (1 + amount) == Y + Y * amount; }
    ProportionalDebt(shares, Y, amount, amount + owed);
    ProportionalDebt(shares, Y, amount, amount + owed - 1);
    CeilLe(n, d, amount + owed);
    CeilLe(n, d, amount + owed - 1);
  }

  lemma ProportionalDebt(shares: nat, Y: nat, amount: nat, q: int)
    requires 0 < Y
    ensures (shares + amount * Y) * (1 + amount) <= q * (Y + amount * Y) <==> shares <= (q - amount) * Y
  {
    var left, right, c := shares + amount * Y, q * Y, 1 + amount;
    assert q * (Y + amount * Y) == right * c by {
      assert Y + amount * Y == Y * c;
      assert q * (Y * c) == q * Y * c;
    }
    assert (q - amount) * Y == right - amount * Y;
    if left <= right {
      MulMono(left, right, c);
    } else if left * c <= right * c {
      CancelLe(left, right, c);
    }
  }

  function RepaymentOf(projected: MarketState, shares: nat): int
    requires projected.Valid()
  {
    if shares == 0 then 0
    else CeilDiv(shares * (projected.totalBorrowAssets + 1), projected.totalBorrowShares + VIRTUAL_SHARES) + 2
  }

  lemma UnborrowedCharge(projected: MarketState, shares: nat, collateral: nat, amount: nat)
    requires projected.Valid() && shares <= projected.totalBorrowShares
    ensures Charged(Unborrowed(projected, shares, collateral), amount) == RepaymentOf(projected, shares) + amount + 2
  {
    var s, Y := Unborrowed(projected, shares, collateral), projected.totalBorrowShares + VIRTUAL_SHARES;
    BorrowedIsDebtAfter(s, amount);
    UnborrowedDebt(shares, Y, amount);
    var debt := DebtAfter(shares, 1, Y, amount);
    assert MAX_MARKET_RATE * 0 == 0 && Growth(0) == 0 && debt * 0 == 0;
    assert MaximumHorizonInterest(debt, 0) == 0;
    MulMono2(0, shares, 0, projected.totalBorrowAssets + 1);
    CeilNonNegative(shares * (projected.totalBorrowAssets + 1), Y);
  }

  /**
   * What the two spare units are worth by themselves: over all snapshots that project a market, every
   * passing quote of the amount holds there if and only if the repayment quote, the amount and two
   * units cover the share rounding.
   */
  lemma SpareUnitsExact(projected: MarketState, shares: nat, amount: nat)
    requires projected.Valid() && shares <= projected.totalBorrowShares
    ensures (forall s: Snapshot :: Projects(s, projected, shares) && BorrowPasses(s, amount) ==> HoldsAtProjection(s, amount))
            <==> CoversRounding(projected, shares, amount, RepaymentOf(projected, shares) + amount + 2)
  {
    var charge := RepaymentOf(projected, shares) + amount + 2;
    if CoversRounding(projected, shares, amount, charge) {
      forall s: Snapshot | Projects(s, projected, shares) && BorrowPasses(s, amount)
        ensures HoldsAtProjection(s, amount)
      {
        SpareUnitsSuffice(s, amount);
      }
    } else {
      SpareUnitsNeeded(projected, shares, amount);
    }
  }

  lemma SpareUnitsSuffice(s: Snapshot, amount: nat)
    requires SameShares(s) && BorrowPasses(s, amount)
    requires var shares := s.account.value.position.borrowShares;
             CoversRounding(s.projectedMarket, shares, amount, RepaymentOf(s.projectedMarket, shares) + amount + 2)
    ensures HoldsAtProjection(s, amount)
  {
    CoveredIsEnough(s, amount, RepaymentOf(s.projectedMarket, s.account.value.position.borrowShares) + amount + 2);
    ChargedCovers(s, amount);
    SecuredPasses(s, amount);
  }

  lemma SpareUnitsNeeded(projected: MarketState, shares: nat, amount: nat)
    requires projected.Valid() && shares <= projected.totalBorrowShares
    requires !CoversRounding(projected, shares, amount, RepaymentOf(projected, shares) + amount + 2)
    ensures exists s: Snapshot :: Projects(s, projected, shares) && BorrowPasses(s, amount) && !HoldsAtProjection(s, amount)
  {
    var charge := RepaymentOf(projected, shares) + amount + 2;
    MulMono2(0, shares, 0, projected.totalBorrowAssets + 1);
    CeilNonNegative(shares * (projected.totalBorrowAssets + 1), projected.totalBorrowShares + VIRTUAL_SHARES);
    var collateral := CeilDiv(charge * BPS, MARKET_BUFFER_LTV_BPS);
    TightCollateral(charge, charge, collateral);
    var s := Unborrowed(projected, shares, collateral);
    CoveredIsEnough(s, amount, charge);
    TightCollateral(charge, DebtAtProjection(s, amount), collateral);
    UnborrowedCharge(projected, shares, collateral, amount);
    SecuredPasses(s, amount);
    assert Projects(s, projected, shares);
  }

  /** Without debt the condition is on the rounding of the minted shares alone. */
  lemma SpareUnitsWithoutDebt(projected: MarketState, amount: nat)
    requires projected.Valid()
    ensures var X, Y := projected.totalBorrowAssets + 1, projected.totalBorrowShares + VIRTUAL_SHARES;
            var minted := CeilDiv(amount * Y, X);
            (forall s: Snapshot :: Projects(s, projected, 0) && BorrowPasses(s, amount) ==> HoldsAtProjection(s, amount))
            <==> minted * X - amount * Y <= 2 * (Y + minted)
  {
    SpareUnitsExact(projected, 0, amount);
    var X, Y := projected.totalBorrowAssets + 1, projected.totalBorrowShares + VIRTUAL_SHARES;
    var minted := CeilDiv(amount * Y, X);
    DropMintedAmount(minted, X, Y, amount);
  }

  lemma DropMintedAmount(minted: int, X: int, Y: int, amount: int)
    ensures minted * (X + amount) <= (amount + 2) * (Y + minted) <==> minted * X - amount * Y <= 2 * (Y + minted)
  {
    assert minted * (X + amount) == minted * X + amount * minted;
    assert (amount + 2) * (Y + minted) == amount * Y + amount * minted + 2 * (Y + minted);
  }

  /**
   * A quote read from the market holds in the projected market, whatever growth led there (an idle
   * market's adaptation included), while a borrow share is worth at most two raw units there, or four
   * for an account with debt, whose repayment quote has two spare units of its own.
   */
  lemma BorrowExecutableAtProjection(s: Snapshot, r: Reading, amount: nat)
    requires ReadAs(s, r) && BorrowPasses(s, amount)
    requires s.projectedMarket.totalBorrowAssets + 1
             <= (if s.account.value.position.borrowShares == 0 then 2 else 4) * (s.projectedMarket.totalBorrowShares + VIRTUAL_SHARES)
    ensures SameShares(s) && HoldsAtProjection(s, amount)
  {
    ReadingSameShares(s, r);
    var p, Y := s.account.value.position.borrowShares, s.market.totalBorrowShares + VIRTUAL_SHARES;
    BorrowedIsDebtAfter(s.(market := s.projectedMarket), amount);
    DebtAfterCeiling(p, s.projectedMarket.totalBorrowAssets + 1, Y, amount, if p == 0 then 2 else 4);
    PassingFitsBuffer(s, amount);
    ForwardDebtCoversExisting(s);
  }

  /**
   * At any share price a quote holds in the projected market when the debts grew no faster from the
   * quoted block to the projection than the rate ceiling allows; what remains to be covered by spare
   * units is an idle market's adaptation only.
   */
  lemma BorrowExecutableUnderCappedGrowth(s: Snapshot, r: Reading, amount: nat)
    requires ReadAs(s, r) && BorrowPasses(s, amount)
    requires s.market.totalBorrowAssets <= s.projectedMarket.totalBorrowAssets
    requires (s.projectedMarket.totalBorrowAssets - s.market.totalBorrowAssets) * WAD
             <= s.market.totalBorrowAssets * Growth(MAX_MARKET_RATE * s.projectionSeconds)
    ensures SameShares(s) && HoldsAtProjection(s, amount)
  {
    ReadingSameShares(s, r);
    BorrowedIsDebtAfter(s, amount);
    BorrowedIsDebtAfter(s.(market := s.projectedMarket), amount);
    MulMono2(0, MAX_MARKET_RATE, 0, s.projectionSeconds);
    GrowthMonotone(0, MAX_MARKET_RATE * s.projectionSeconds);
    LaterBorrowCovered(s.account.value.position.borrowShares, s.market.totalBorrowAssets + 1,
                       s.market.totalBorrowShares + VIRTUAL_SHARES, amount,
                       s.projectedMarket.totalBorrowAssets - s.market.totalBorrowAssets,
                       Growth(MAX_MARKET_RATE * s.projectionSeconds));
    SecuredPasses(s, amount);
  }

  /** So every quote of a market accrued in the quoted block itself holds, at any horizon rate up to the ceiling. */
  lemma FreshReadingHolds(s: Snapshot, r: Reading, amount: nat)
    requires ReadAs(s, r) && BorrowPasses(s, amount)
    requires r.stored.lastUpdate == r.timestamp && r.horizonRate <= MAX_MARKET_RATE
    ensures SameShares(s) && HoldsAtProjection(s, amount)
  {
    AccrualWithinHorizon(r.stored, r.horizonRate, r.timestamp + s.projectionSeconds, s.projectionSeconds);
    BorrowExecutableUnderCappedGrowth(s, r, amount);
  }

  // A day-idle market whose whole debt is one share and the virtual ones: a share is worth about a million raw units.
  const COARSE := MarketState(2_000_000_000_000, 2_000_000_000_000_000_000, 1_000_000_000_000, 1, 1_700_000_000, 0)
  const COARSE_READING := Reading(COARSE, 0, 2_000_000_000, 1_700_086_400)

  function CoarseSnapshot(): Snapshot {
    var market, position := AccrueMarket(COARSE, 0, 1_700_086_400), MarketPosition(0, 0, 1_250_127);
    Snapshot(market, AccrueMarket(COARSE, 2_000_000_000, 1_700_086_787), ORACLE_SCALE, 387,
             market.totalSupplyAssets - market.totalBorrowAssets,
             Some(Account(position, MarketPositionValues(market, position, ORACLE_SCALE))))
  }

  /**
   * And without those bounds it can fail: on this reading the amounts that pass are those up to
   * 999_999, all within liquidity, and borrowing the largest in the projected market breaks the buffer.
   */
  lemma CoarseSharesDefeatTheQuote()
    ensures var s := CoarseSnapshot();
            && ReadAs(s, COARSE_READING) && SameShares(s) && s.liquidity == 1_000_000_000_000
            && (forall a: nat :: BorrowPasses(s, a) <==> a <= 999_999)
            && !HoldsAtProjection(s, 999_999)
  {
    var s := CoarseSnapshot();
    CoarseReading();
    CoarseDebts();
    BorrowedIsDebtAfter(s, 999_999);
    BorrowedIsDebtAfter(s, 1_000_000);
    BorrowedIsDebtAfter(s.(market := s.projectedMarket), 999_999);
    assert BorrowPasses(s, 999_999) && !BorrowPasses(s, 1_000_000);
    forall a: nat
      ensures BorrowPasses(s, a) <==> a <= 999_999
    {
      if a <= 999_999 {
        BorrowPassesDownward(s, a, 999_999);
      } else if BorrowPasses(s, a) {
        BorrowPassesDownward(s, 1_000_000, a);
      }
    }
  }

  // A market touched in the quoted block, a million shares to the raw unit, half of its debt one account's.
  const COMMON := MarketState(4_000_000_000_000, 4_000_000_000_000_000_000, 2_000_000_000_000, 2_000_000_000_000_000_000, 1_700_000_000, 0)
  const COMMON_READING := Reading(COMMON, 0, 1_000_000_000, 1_700_000_000)

  function IndebtedSnapshot(): Snapshot {
    var position := MarketPosition(0, 1_000_000_000_000_000_000, 2_000_000_000_000);
    Snapshot(COMMON, AccrueMarket(COMMON, 1_000_000_000, 1_700_000_387), ORACLE_SCALE, 387, 2_000_000_000_000,
             Some(Account(position, MarketPositionValues(COMMON, position, ORACLE_SCALE))))
  }

  /** A quote to the unit, for an account with debt over a real horizon: exactly the amounts up to 599,842,543,118 pass. */
  lemma IndebtedQuote()
    ensures var s := IndebtedSnapshot();
            && ReadAs(s, COMMON_READING) && s.account.value.values.borrowed == 1_000_000_000_000
            && ForwardDebt(s) == 1_000_000_387_002
            && (forall a: nat :: BorrowPasses(s, a) <==> a <= 599_842_543_118)
            && (forall a: nat :: Affordable(s, a) <==> a <= 599_842_543_118)
  {
    var s := IndebtedSnapshot();
    IndebtedReading();
    ProportionalMint(599_842_543_118);
    ProportionalMint(599_842_543_119);
    IndebtedInterest();
    BorrowedIsDebtAfter(s, 599_842_543_118);
    BorrowedIsDebtAfter(s, 599_842_543_119);
    assert BorrowPasses(s, 599_842_543_118) && !BorrowPasses(s, 599_842_543_119);
    forall a: nat
      ensures BorrowPasses(s, a) <==> a <= 599_842_543_118
      ensures Affordable(s, a) <==> a <= 599_842_543_118
    {
      PassesExactlyAffordable(s, a);
      if a <= 599_842_543_118 {
        BorrowPassesDownward(s, a, 599_842_543_118);
      } else if BorrowPasses(s, a) {
        BorrowPassesDownward(s, 599_842_543_119, a);
      }
    }
  }

  lemma IndebtedReading()
    ensures var s := IndebtedSnapshot();
            && ReadAs(s, COMMON_READING) && s.account.value.values.borrowed == 1_000_000_000_000
            && s.account.value.values.collateralValue == 2_000_000_000_000
            && ForwardDebt(s) == 1_000_000_387_002
  {
    GrowthAt(387_000_000_000, 74_884, 0);
    assert AccrueMarket(COMMON, 1_000_000_000, 1_700_000_387).totalBorrowAssets == 2_000_000_774_000;
    assert CeilDiv(1_000_000_000_000_000_000 * 2_000_000_000_001, 2_000_000_000_001_000_000) == 1_000_000_000_000;
    assert CeilDiv(1_000_000_000_000_000_000 * 2_000_000_774_001, 2_000_000_000_001_000_000) == 1_000_000_387_000;
  }

  /** At a million shares to the raw unit, minting and the debt are exact. */
  lemma ProportionalMint(a: nat)
    ensures DebtAfter(1_000_000_000_000_000_000, 2_000_000_000_001, 2_000_000_000_001_000_000, a) == 1_000_000_000_000 + a
  {
    var X, Y, p := 2_000_000_000_001, 2_000_000_000_001_000_000, 1_000_000_000_000_000_000;
    var minted := CeilDiv(a * Y, X);
    ExactQuotient(a * Y, X, a * 1_000_000);
    assert minted == a * 1_000_000;
    var debt := 1_000_000_000_000 + a;
    var pool := Y + minted;
    assert p + minted == debt * 1_000_000 && pool == (X + a) * 1_000_000;
    assert (p + minted) * (X + a) == debt * pool by {
      assert debt * 1_000_000 * (X + a) == debt * (1_000_000 * (X + a));
    }
    ExactQuotient((p + minted) * (X + a), pool, debt);
  }

  lemma ExactQuotient(n: int, d: int, q: int)
    requires d > 0 && n == q * d
    ensures CeilDiv(n, d) == q
  {
    CeilLe(n, d, q);
    CeilLe(n, d, q - 1);
    assert (q - 1) * d == q * d - d;
  }

  lemma IndebtedInterest()
    ensures MaximumHorizonInterest(1_599_842_543_118, 387) == 157_069_878
    ensures MaximumHorizonInterest(1_599_842_543_119, 387) == 157_069_878
  {
    CoarseGrowth();
  }

  lemma CoarseReading()
    ensures var s := CoarseSnapshot();
            && ReadAs(s, COARSE_READING) && SameShares(s) && s.market == COARSE.(lastUpdate := 1_700_086_400)
            && s.projectedMarket.totalBorrowAssets == 1_000_173_589_064 && s.projectedMarket.totalBorrowShares == 1
  {
    assert Growth(0) == 0;
    assert 2_000_000_000 * 86_787 == 173_574_000_000_000;
    GrowthAt(173_574_000_000_000, 15_063_966_738, 871_570);
  }

  lemma CoarseDebts()
    ensures DebtAfter(0, 1_000_000_000_001, 1_000_001, 999_999) == 1_000_000
    ensures DebtAfter(0, 1_000_000_000_001, 1_000_001, 1_000_000) == 1_999_997
    ensures DebtAfter(0, 1_000_173_589_065, 1_000_001, 999_999) == 1_000_173
    ensures MaximumHorizonInterest(1_000_000, 387) == 99 && MaximumHorizonInterest(1_999_997, 387) == 197
  {
    assert CeilDiv(999_999 * 1_000_001, 1_000_000_000_001) == 1 && CeilDiv(1_000_001_000_000, 1_000_002) == 1_000_000;
    assert CeilDiv(1_000_000 * 1_000_001, 1_000_000_000_001) == 2 && CeilDiv(2 * 1_000_001_000_001, 1_000_003) == 1_999_997;
    assert CeilDiv(999_999 * 1_000_001, 1_000_173_589_065) == 1 && CeilDiv(1_000_174_589_064, 1_000_002) == 1_000_173;
    CoarseGrowth();
  }

  lemma CoarseGrowth()
    ensures Growth(MAX_MARKET_RATE * 387) == 98_178_335_159_397
  {
    assert MAX_MARKET_RATE * 387 == 98_173_515_982_077;
    GrowthAt(98_173_515_982_077, 4_819_019_620, 157_700);
  }

  lemma GrowthAt(first: int, second: int, third: int)
    requires second * (2 * WAD) <= first * first < (second + 1) * (2 * WAD)
    requires third * (3 * WAD) <= second * first < (third + 1) * (3 * WAD)
    ensures Growth(first) == first + second + third
  {
    FloorLe(first * first, 2 * WAD, second);
    FloorLe(first * first, 2 * WAD, second + 1);
    FloorLe(second * first, 3 * WAD, third);
    FloorLe(second * first, 3 * WAD, third + 1);
  }

  lemma ForwardDebtCoversExisting(s: Snapshot)
    requires s.Consistent() && s.projectedMarket.totalBorrowShares == s.market.totalBorrowShares
    ensures CeilDiv(s.account.value.position.borrowShares * (s.projectedMarket.totalBorrowAssets + 1),
                    s.market.totalBorrowShares + VIRTUAL_SHARES) <= ForwardDebt(s)
    ensures 0 <= s.account.value.values.borrowed
  {
    if s.account.value.position.borrowShares == 0 {
      assert 0 * (s.projectedMarket.totalBorrowAssets + 1) == 0;
    }
  }

  /** Share rounding adds at most one share's worth to the existing debt and the amount borrowed. */
  lemma DebtAfterCeiling(p: int, X: int, Y: int, a: int, k: int)
    requires 0 <= p <= Y && 0 < X <= k * Y && 0 < Y && 0 <= a
    ensures DebtAfter(p, X, Y, a) <= CeilDiv(p * X, Y) + a + k
  {
    CeilNonNegativeMinted(a, X, Y);
    var m, existing := CeilDiv(a * Y, X), CeilDiv(p * X, Y);
    CeilLe(a * Y, X, m);
    CeilLe(a * Y, X, m - 1);
    CeilLe(p * X, Y, existing);
    DebtCeilingRaw(p, X, Y, a, k, m, existing);
    CeilLe((p + m) * (X + a), Y + m, existing + a + k);
  }

  lemma DebtCeilingRaw(p: int, X: int, Y: int, a: int, k: int, m: int, existing: int)
    requires 0 <= p && 0 < X <= k * Y && 0 < Y && 0 <= a && 0 <= m
    requires a * Y <= m * X && (m - 1) * X <= a * Y && p * X <= existing * Y
    ensures (p + m) * (X + a) <= (existing + a + k) * (Y + m)
  {
    DearerPool(X, Y, a, m);
    assert (p + m) * X <= (existing + a + k) * Y by { GrownDebtRaw(p, X, Y, a, k, m, existing); }
    ChainRatios(p + m, X + a, existing + a + k, Y + m, X, Y);
  }

  lemma DebtRiseIdentity(p: int, X: int, Y: int, a: int, m: int)
    ensures (p + m) * (X + a) * Y - (p * X + a * Y) * (Y + m) == (m * X - a * Y) * (Y - p)
  {
  }

  /** A minted amount, rounded in the pool's favour, does not make a share dearer. */
  lemma DearerPool(X: int, Y: int, a: int, m: int)
    requires a * Y <= m * X
    ensures (X + a) * Y <= (Y + m) * X
  {
    assert (X + a) * Y == X * Y + a * Y;
    assert (Y + m) * X == X * Y + m * X;
  }

  lemma GrownDebtRaw(p: int, X: int, Y: int, a: int, k: int, m: int, existing: int)
    requires X <= k * Y && (m - 1) * X <= a * Y && p * X <= existing * Y
    ensures (p + m) * X <= (existing + a + k) * Y
  {
    assert (p + m) * X == p * X + (m - 1) * X + X;
    assert (existing + a + k) * Y == existing * Y + a * Y + k * Y;
  }

  /** Two ratio bounds compose through the pair `x`, `y` they share. */
  lemma ChainRatios(n: int, x': int, q: int, y': int, x: int, y: int)
    requires 0 <= n && 0 <= y' && 0 < y
    requires x' * y <= y' * x && n * x <= q * y
    ensures n * x' <= q * y'
  {
    MulMono(x' * y, y' * x, n);
    MulMono(n * x, q * y, y');
    assert x' * y * n == n * x' * y;
    assert y' * x * n == n * x * y';
    assert q * y * y' == q * y' * y;
    CancelLe(n * x', q * y', y);
  }
}
