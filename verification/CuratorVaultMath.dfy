/**
 * Coupon accrual in basis points, Actual/360, floored to whole units with the remainder carried,
 * and the page's view of what is claimable at month boundaries.
 */
module CuratorVaultMath {
  import opened Arith
  import opened RateEpochs
  import opened CivilCalendar
  import opened Wrappers

  const YEAR_SECONDS: int := 360 * 86_400
  const BPS: int := 10_000
  const SLICE_DENOMINATOR: int := BPS * YEAR_SECONDS

  datatype Accrual = Accrual(whole: nat, remainder: nat)

  /** Principal times the rate seconds of [from, to), plus what was carried, in units and remainder. */
  function Accrued(principal: nat, epochs: seq<RateEpoch>, from: int, to: int, carried: nat): Accrual {
    if to <= from || principal == 0 || |epochs| == 0 then Accrual(0, carried)
    else
      var numerator := carried + principal * SliceSum(epochs, |epochs|, from, to);
      Accrual(numerator / SLICE_DENOMINATOR, numerator % SLICE_DENOMINATOR)
  }

  method Accrue(principal: nat, epochs: seq<RateEpoch>, from: int, to: int, carried: nat) returns (r: Accrual)
    ensures r == Accrued(principal, epochs, from, to, carried)
  {
    if to <= from || principal == 0 || |epochs| == 0 {
      return Accrual(0, carried);
    }
    var numerator := carried;
    for i := 0 to |epochs|
      invariant numerator == carried + principal * SliceSum(epochs, i, from, to)
    {
      var sliceStart := if epochs[i].start > from then epochs[i].start else from;
      var sliceEnd := if i + 1 < |epochs| then (if epochs[i + 1].start < to then epochs[i + 1].start else to) else to;
      PrincipalDistributes(principal, SliceSum(epochs, i, from, to), epochs[i].rate, SliceLength(epochs, i, from, to));
      if sliceEnd > sliceStart {
        numerator := numerator + principal * epochs[i].rate * (sliceEnd - sliceStart);
      }
    }
    return Accrual(numerator / SLICE_DENOMINATOR, numerator % SLICE_DENOMINATOR);
  }

  lemma PrincipalDistributes(principal: nat, before: nat, rate: nat, length: nat)
    ensures principal * (before + rate * length) == principal * before + principal * rate * length
  {
  }

  /** The rate of the last epoch started by `now`. */
  method CurrentRateBps(epochs: seq<RateEpoch>, now: int) returns (bps: nat)
    ensures bps == RateAt(epochs, now)
  {
    bps := 0;
    for i := 0 to |epochs|
      invariant bps == RateAmong(epochs, i, now)
    {
      if epochs[i].start <= now {
        bps := epochs[i].rate;
      }
    }
  }

  // ===== Second by second =====

  /** Principal times the current rate, added up one second at a time. */
  function SecondBySecond(principal: nat, epochs: seq<RateEpoch>, from: int, to: int): nat
    decreases Max(to - from, 0)
  {
    if to <= from then 0
    else SecondBySecond(principal, epochs, from, to - 1) + principal * RateAt(epochs, to - 1)
  }

  lemma {:induction false} SecondsScale(principal: nat, epochs: seq<RateEpoch>, from: int, to: int)
    ensures SecondBySecond(principal, epochs, from, to) == principal * SecondSum(epochs, from, to)
    decreases Max(to - from, 0)
  {
    if from < to {
      SecondsScale(principal, epochs, from, to - 1);
      assert principal * (SecondSum(epochs, from, to - 1) + RateAt(epochs, to - 1))
             == principal * SecondSum(epochs, from, to - 1) + principal * RateAt(epochs, to - 1);
    }
  }

  lemma {:induction false} NoEpochsNoSeconds(epochs: seq<RateEpoch>, from: int, to: int)
    requires |epochs| == 0
    ensures SecondSum(epochs, from, to) == 0
    decreases Max(to - from, 0)
  {
    if from < to {
      NoEpochsNoSeconds(epochs, from, to - 1);
    }
  }

  /** No unit is lost or made: whole units and remainder account exactly for every second's interest. */
  lemma AccruedSecondBySecond(principal: nat, epochs: seq<RateEpoch>, from: int, to: int, carried: nat)
    requires Ordered(epochs)
    ensures var r := Accrued(principal, epochs, from, to, carried);
            && r.whole * SLICE_DENOMINATOR + r.remainder == carried + SecondBySecond(principal, epochs, from, to)
            && (carried < SLICE_DENOMINATOR ==> r.remainder < SLICE_DENOMINATOR)
  {
    SecondsScale(principal, epochs, from, to);
    SlicesAreSeconds(epochs, from, to);
    if to <= from || principal == 0 {
      assert principal * SecondSum(epochs, from, to) == 0;
    } else if |epochs| == 0 {
      NoEpochsNoSeconds(epochs, from, to);
    }
  }

  lemma SecondBySecondSplits(principal: nat, epochs: seq<RateEpoch>, from: int, mid: int, to: int)
    requires from <= mid <= to
    ensures SecondBySecond(principal, epochs, from, to)
            == SecondBySecond(principal, epochs, from, mid) + SecondBySecond(principal, epochs, mid, to)
  {
    SecondsScale(principal, epochs, from, to);
    SecondsScale(principal, epochs, from, mid);
    SecondsScale(principal, epochs, mid, to);
    SecondSumSplits(epochs, from, mid, to);
    assert principal * (SecondSum(epochs, from, mid) + SecondSum(epochs, mid, to))
           == principal * SecondSum(epochs, from, mid) + principal * SecondSum(epochs, mid, to);
  }

  // ===== Splitting =====

  /** Accrual settled at each of `times` in turn, carrying the remainder along. */
  function AccruedThrough(principal: nat, epochs: seq<RateEpoch>, times: seq<int>, carried: nat): Accrual
    requires |times| > 0
    decreases |times|
  {
    if |times| == 1 then Accrual(0, carried) else
      var first := Accrued(principal, epochs, times[0], times[1], carried);
      var rest := AccruedThrough(principal, epochs, times[1..], first.remainder);
      Accrual(first.whole + rest.whole, rest.remainder)
  }

  predicate Ascending(times: seq<int>) {
    forall i :: 1 <= i < |times| ==> times[i - 1] <= times[i]
  }

  lemma {:induction false} ChainSecondBySecond(principal: nat, epochs: seq<RateEpoch>, times: seq<int>, carried: nat)
    requires Ordered(epochs) && |times| > 0 && Ascending(times) && carried < SLICE_DENOMINATOR
    ensures times[0] <= times[|times| - 1]
    ensures var r := AccruedThrough(principal, epochs, times, carried);
            && r.whole * SLICE_DENOMINATOR + r.remainder
               == carried + SecondBySecond(principal, epochs, times[0], times[|times| - 1])
            && r.remainder < SLICE_DENOMINATOR
    decreases |times|
  {
    if |times| > 1 {
      var first := Accrued(principal, epochs, times[0], times[1], carried);
      AccruedSecondBySecond(principal, epochs, times[0], times[1], carried);
      assert Ascending(times[1..]) by {
        forall i | 1 <= i < |times[1..]|
          ensures times[1..][i - 1] <= times[1..][i]
        {
          assert times[i] <= times[i + 1];
        }
      }
      ChainSecondBySecond(principal, epochs, times[1..], first.remainder);
      SecondBySecondSplits(principal, epochs, times[0], times[1], times[|times| - 1]);
      var rest := AccruedThrough(principal, epochs, times[1..], first.remainder);
      assert (first.whole + rest.whole) * SLICE_DENOMINATOR == first.whole * SLICE_DENOMINATOR + rest.whole * SLICE_DENOMINATOR;
    }
  }

  /** Path independence: any chain of split points gives exactly the one-shot units and remainder. */
  lemma SplittingIsExact(principal: nat, epochs: seq<RateEpoch>, times: seq<int>, carried: nat)
    requires Ordered(epochs) && |times| > 0 && Ascending(times) && carried < SLICE_DENOMINATOR
    ensures AccruedThrough(principal, epochs, times, carried)
            == Accrued(principal, epochs, times[0], times[|times| - 1], carried)
  {
    ChainSecondBySecond(principal, epochs, times, carried);
    AccruedSecondBySecond(principal, epochs, times[0], times[|times| - 1], carried);
    var chain, once := AccruedThrough(principal, epochs, times, carried),
                       Accrued(principal, epochs, times[0], times[|times| - 1], carried);
    DivModUnique(chain.whole, chain.remainder, once.whole, once.remainder, SLICE_DENOMINATOR);
  }

  // ===== The coupon page =====

  datatype CouponPosition = CouponPosition(
    principal: nat, couponOwed: nat, couponPayable: nat, couponRemainder: nat,
    couponAccruedThrough: nat, couponPaidThrough: nat)

  datatype CouponView = CouponView(claimable: nat, pendingThisMonth: nat, nextBoundary: int, boundary: int)

  predicate BoundaryPayable(p: CouponPosition, boundary: int) {
    boundary > p.couponPaidThrough
  }

  /** The view settles the position up to the boundary first. */
  predicate SettlesAtBoundary(p: CouponPosition, boundary: int) {
    BoundaryPayable(p, boundary) && p.couponAccruedThrough != 0 && p.couponAccruedThrough <= boundary
  }

  /** Accrued from the last checkpoint up to `t`, in whole units. */
  function AccruedSince(p: CouponPosition, epochs: seq<RateEpoch>, t: int): nat {
    Accrued(p.principal, epochs, p.couponAccruedThrough, t, p.couponRemainder).whole
  }

  /** The part of a view's sum that is not owed: what is already payable while no new boundary is. */
  function NotCounted(p: CouponPosition, boundary: int): nat {
    if BoundaryPayable(p, boundary) then 0 else p.couponPayable
  }

  /** A stored payable above what is owed, on a position the view does not settle, shows in its sum. */
  function Excess(p: CouponPosition, boundary: int): nat {
    if SettlesAtBoundary(p, boundary) then 0 else Max(p.couponPayable - p.couponOwed, 0)
  }

  lemma SettlingKeepsTotal(principal: nat, epochs: seq<RateEpoch>, from: int, boundary: int, now: int, carried: nat)
    requires Ordered(epochs) && from <= boundary <= now && carried < SLICE_DENOMINATOR
    ensures var settled := Accrued(principal, epochs, from, boundary, carried);
            settled.whole + Accrued(principal, epochs, boundary, now, settled.remainder).whole
            == Accrued(principal, epochs, from, now, carried).whole
  {
    var times := [from, boundary, now];
    SplittingIsExact(principal, epochs, times, carried);
    var settled := Accrued(principal, epochs, from, boundary, carried);
    var last := Accrued(principal, epochs, boundary, now, settled.remainder);
    assert times[1..] == [boundary, now] && [boundary, now][1..] == [now];
    assert AccruedThrough(principal, epochs, [now], last.remainder).whole == 0;
    assert AccruedThrough(principal, epochs, [boundary, now], settled.remainder).whole == last.whole;
  }

  /**
   * What could be claimed now and what is still pending, for the month between the two boundaries.
   * They always add up to everything owed plus everything accrued since the checkpoint, less
   * `NotCounted`, plus `Excess`: moving the checkpoint to the boundary neither makes nor loses a unit.
   */
  method ViewBetween(p: CouponPosition, epochs: seq<RateEpoch>, now: int, boundary: int, nextBoundary: int)
    returns (view: CouponView)
    ensures view.boundary == boundary && view.nextBoundary == nextBoundary
    ensures view.claimable == if !BoundaryPayable(p, boundary) then 0
                              else if SettlesAtBoundary(p, boundary) then p.couponOwed + AccruedSince(p, epochs, boundary)
                              else p.couponPayable
    ensures boundary <= now && Ordered(epochs) && p.couponRemainder < SLICE_DENOMINATOR ==>
              view.claimable + view.pendingThisMonth
              == p.couponOwed + AccruedSince(p, epochs, now) - NotCounted(p, boundary) + Excess(p, boundary)
  {
    var payableNow := boundary > p.couponPaidThrough;
    var owed, payable, remainder := p.couponOwed, p.couponPayable, p.couponRemainder;
    var accruedThrough: int := p.couponAccruedThrough;
    if payableNow && accruedThrough != 0 && accruedThrough <= boundary {
      var r := Accrue(p.principal, epochs, accruedThrough, boundary, remainder);
      owed := owed + r.whole;
      remainder := r.remainder;
      accruedThrough := boundary;
      payable := owed;
      if boundary <= now && Ordered(epochs) && p.couponRemainder < SLICE_DENOMINATOR {
        SettlingKeepsTotal(p.principal, epochs, p.couponAccruedThrough, boundary, now, p.couponRemainder);
      }
    }
    var pendingStored := if owed >= payable then owed - payable else 0;
    var since := Accrue(p.principal, epochs, accruedThrough, now, remainder);
    view := CouponView(if payableNow then payable else 0, pendingStored + since.whole, nextBoundary, boundary);
  }

  /** The view at `now`, between the month's own boundaries; nothing where they cannot be computed. */
  method ViewCoupon(p: CouponPosition, epochs: seq<RateEpoch>, now: int) returns (r: Option<CouponView>)
    ensures r.Some? <==> MonthStart(now).Some? && NextMonthStart(now).Some?
    ensures r.Some? ==>
              var view := r.value;
              && MonthStart(now) == Some(view.boundary) && NextMonthStart(now) == Some(view.nextBoundary)
              && (!(0 <= YearAt(now) <= 99) ==> view.boundary <= now < view.nextBoundary)
              && view.claimable == (if view.boundary <= p.couponPaidThrough then 0
                                    else if p.couponAccruedThrough == 0 || view.boundary < p.couponAccruedThrough then p.couponPayable
                                    else p.couponOwed + Accrued(p.principal, epochs, p.couponAccruedThrough, view.boundary, p.couponRemainder).whole)
              && (!(0 <= YearAt(now) <= 99) && Ordered(epochs) && p.couponRemainder < SLICE_DENOMINATOR ==>
                    view.claimable + view.pendingThisMonth
                    == p.couponOwed + Accrued(p.principal, epochs, p.couponAccruedThrough, now, p.couponRemainder).whole
                       - (if view.boundary <= p.couponPaidThrough then p.couponPayable else 0)
                       + (if p.couponPaidThrough < view.boundary && p.couponAccruedThrough != 0 && p.couponAccruedThrough <= view.boundary
                          then 0 else Max(p.couponPayable - p.couponOwed, 0)))
  {
    var boundary, nextBoundary := MonthStart(now), NextMonthStart(now);
    if boundary.None? || nextBoundary.None? {
      return None;
    }
    MonthBoundaries(now);
    var view := ViewBetween(p, epochs, now, boundary.value, nextBoundary.value);
    r := Some(view);
  }
}
