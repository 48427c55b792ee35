/**
 * What each previewed action does to the acting account, which actions are refused, and how long the
 * repayment quote lasts.
 */
module MorphoMarketPreviews {
  import opened Arith
  import opened MorphoMarket
  import opened MorphoMarketActions
  import opened Wrappers

  /** Repaying everything leaves no debt, and takes from the market what was owed; nothing else moves. */
  lemma RepayAllClears(s: Snapshot, amount: nat)
    requires s.Consistent()
    ensures var r, position := PostActionState(Repay, amount, true, s), s.account.value.position;
            && r.Some? && r.value.1 == position.(borrowShares := 0)
            && r.value.0 == s.market.(totalBorrowAssets := s.market.totalBorrowAssets - s.account.value.values.borrowed,
                                      totalBorrowShares := s.market.totalBorrowShares - position.borrowShares)
            && PostActionValues(Repay, amount, true, s).value.borrowed == 0
            && PostActionValues(Repay, amount, true, s).value.collateralValue == s.account.value.values.collateralValue
  {
    var r := PostActionState(Repay, amount, true, s);
    PostActionDenominators(Repay, amount, true, s);
    assert 0 * (r.value.0.totalBorrowAssets + 1) == 0;
    CeilLe(0, r.value.0.totalBorrowShares + VIRTUAL_SHARES, 0);
    CeilLe(0, r.value.0.totalBorrowShares + VIRTUAL_SHARES, -1);
  }

  /** A partial repayment is refused exactly when its amount is worth more whole shares than are owed. */
  lemma RepaymentRefusedExactly(s: Snapshot, amount: int)
    requires s.Consistent()
    ensures PostActionState(Repay, amount, false, s).Some?
            <==> 0 <= amount
                 && amount * (s.market.totalBorrowShares + VIRTUAL_SHARES)
                    < (s.account.value.position.borrowShares + 1) * (s.market.totalBorrowAssets + 1)
  {
    FloorLe(amount * (s.market.totalBorrowShares + VIRTUAL_SHARES), s.market.totalBorrowAssets + 1,
            s.account.value.position.borrowShares + 1);
  }

  /** Withdrawing collateral takes just that: refused beyond what is held, it touches neither debt nor market. */
  lemma WithdrawalTakesCollateral(s: Snapshot, amount: int, all: bool)
    requires s.Consistent()
    ensures var r, position := PostActionState(WithdrawCollateral, amount, all, s), s.account.value.position;
            && (r.Some? <==> 0 <= amount <= position.collateral)
            && (r.Some? ==>
                  && r.value == (s.market, position.(collateral := position.collateral - amount))
                  && PostActionValues(WithdrawCollateral, amount, all, s).value.borrowed == s.account.value.values.borrowed
                  && PostActionValues(WithdrawCollateral, amount, all, s).value.collateralValue
                     == (position.collateral - amount) * s.price / ORACLE_SCALE)
  {
  }

  /** The page previews nothing of the actions that only add or lend. */
  lemma LendingPreviewsUnchanged(action: MarketAction, amount: int, all: bool, s: Snapshot)
    requires s.Consistent() && action in {Supply, Withdraw, SupplyCollateral}
    ensures PostActionValues(action, amount, all, s) == if amount < 0 then None else Some(s.account.value.values)
  {
  }

  /** Without debt every unit of collateral may go: the maximum is what the preview itself accepts. */
  lemma DebtFreeWithdrawsAll(s: Snapshot, amount: nat, all: bool)
    requires s.Consistent() && s.account.value.position.borrowShares == 0
    ensures amount <= SafeCollateralMaximum(s) <==> PostActionState(WithdrawCollateral, amount, all, s).Some?
    ensures amount <= SafeCollateralMaximum(s) ==> PostActionValues(WithdrawCollateral, amount, all, s).value.borrowed == 0
  {
    NoSharesNoDebt(s.market, s.account.value.position, s.price);
  }

  /**
   * The repayment quote lasts: up to the projected time, at the horizon's rate, the debt stays two raw
   * units under it, and at the projected time it is exactly two units under.
   */
  lemma RepaymentQuoteLasts(s: Snapshot, r: Reading, timestamp: int)
    requires ReadAs(s, r) && timestamp <= r.timestamp + s.projectionSeconds && s.account.value.position.borrowShares > 0
    ensures var later := AccrueMarket(r.stored, r.horizonRate, timestamp);
            && MarketPositionValues(later, s.account.value.position, s.price).borrowed + 2 <= RepaymentRequired(s)
            && (timestamp == r.timestamp + s.projectionSeconds ==>
                  MarketPositionValues(later, s.account.value.position, s.price).borrowed + 2 == RepaymentRequired(s))
  {
    var p, later, projected := s.account.value.position, AccrueMarket(r.stored, r.horizonRate, timestamp), s.projectedMarket;
    LongerAccrualOwesMore(r.stored, r.horizonRate, timestamp, r.timestamp + s.projectionSeconds);
    AccrualStep(r.stored, r.horizonRate, timestamp);
    AccrualStep(r.stored, r.horizonRate, r.timestamp + s.projectionSeconds);
    MulMono2(p.borrowShares, p.borrowShares, later.totalBorrowAssets + 1, projected.totalBorrowAssets + 1);
    CeilMono(p.borrowShares * (later.totalBorrowAssets + 1), p.borrowShares * (projected.totalBorrowAssets + 1),
             projected.totalBorrowShares + VIRTUAL_SHARES);
  }

  /** Without debt nothing is asked for. */
  lemma NothingToRepay(s: Snapshot)
    requires s.Valid() && (s.account.None? || s.account.value.position.borrowShares == 0)
    ensures RepaymentRequired(s) == 0
  {
  }
}
