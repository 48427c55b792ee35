/**
 * Points follow the maturity ramp: whole schedules against the second-by-second sum of balance, rate
 * in force and the multiplier of the age.
 *
 * Over one second of age the linear multiplier 1 + t / RAMP averages 1 + (2t + 1) / (2 RAMP), so its
 * average times 2 RAMP is a whole number and the sums below are exact.
 */
module PointsRamp {
  import opened Arith
  import opened RateEpochs
  import opened MorphoPoints
  import opened PointsSchedules
  import opened CollateralReplay

  const TWICE_RAMP: int := 2 * MATURITY_RAMP

  // One raw point, in the unit of the sums: the points' own scale, WAD, and the doubled ramp.
  const POINT: int := RATE_SCALE * WAD * TWICE_RAMP

  /** The average multiplier of the second that begins at age `t`, times 2 RAMP: from 1x up to 2x. */
  function MeanMultiplier(t: nat): nat {
    if t < MATURITY_RAMP then TWICE_RAMP + 2 * t + 1 else 2 * TWICE_RAMP
  }

  function MeanSum(x: nat): nat {
    if x == 0 then 0 else MeanSum(x - 1) + MeanMultiplier(x - 1)
  }

  lemma {:induction false} MeanSumClosed(x: nat)
    ensures MeanSum(x) == if x <= MATURITY_RAMP then TWICE_RAMP * x + x * x
                          else TWICE_RAMP * MATURITY_RAMP + MATURITY_RAMP * MATURITY_RAMP + 2 * TWICE_RAMP * (x - MATURITY_RAMP)
  {
    if x > 0 {
      MeanSumClosed(x - 1);
      assert x * x == (x - 1) * (x - 1) + 2 * (x - 1) + 1;
    }
  }

  /** The ramp is the sum of every second's average multiplier, floored once. */
  lemma RampIsMeanSum(x: nat)
    ensures RampIntegral(x) * TWICE_RAMP <= WAD * MeanSum(x) < (RampIntegral(x) + 1) * TWICE_RAMP
  {
    MeanSumClosed(x);
    if x <= MATURITY_RAMP {
      var square := x * x * WAD;
      FloorLe(square, TWICE_RAMP, square / TWICE_RAMP);
      FloorLe(square, TWICE_RAMP, square / TWICE_RAMP + 1);
      assert WAD * (TWICE_RAMP * x + x * x) == x * WAD * TWICE_RAMP + square;
    }
  }

  // ===== Second by second =====

  /** Rate in force times the average multiplier at second `t`; before the start there is none. */
  function SecondEarned(start: int, epochs: seq<RateEpoch>, t: int): nat {
    if t < start then 0 else RateAt(epochs, t) * MeanMultiplier(t - start)
  }

  function EarnedSum(start: int, epochs: seq<RateEpoch>, from: int, to: int): nat
    decreases Max(to - from, 0)
  {
    if to <= from then 0 else EarnedSum(start, epochs, from, to - 1) + SecondEarned(start, epochs, to - 1)
  }

  /** Past the ramp every second earns exactly twice its rate. */
  lemma {:induction false} TwicePastRamp(start: int, epochs: seq<RateEpoch>, from: int, to: int)
    requires start + MATURITY_RAMP <= from
    ensures EarnedSum(start, epochs, from, to) == 2 * TWICE_RAMP * SecondSum(epochs, from, to)
    decreases Max(to - from, 0)
  {
    if from < to {
      TwicePastRamp(start, epochs, from, to - 1);
    }
  }

  function MeanBetween(start: int, a: int, b: int): int {
    MeanSum(Age(start, b)) - MeanSum(Age(start, a))
  }

  function SliceMean(start: int, epochs: seq<RateEpoch>, i: nat, from: int, to: int): int
    requires i < |epochs|
  {
    var a, b := SliceStart(epochs, i, from), SliceEnd(epochs, i, to);
    if a < b then MeanBetween(start, a, b) else 0
  }

  /** The same by epochs: each slice's rate times the multipliers of its seconds. */
  function SlicesEarned(start: int, epochs: seq<RateEpoch>, n: nat, from: int, to: int): int
    requires n <= |epochs|
  {
    if n == 0 then 0
    else SlicesEarned(start, epochs, n - 1, from, to) + epochs[n - 1].rate * SliceMean(start, epochs, n - 1, from, to)
  }

  lemma OneMoreMean(start: int, epochs: seq<RateEpoch>, i: nat, from: int, t: int)
    requires i < |epochs| && from <= t
    ensures SliceMean(start, epochs, i, from, t + 1) - SliceMean(start, epochs, i, from, t)
            == if epochs[i].start <= t && (i + 1 < |epochs| ==> t < epochs[i + 1].start) && start <= t
               then MeanMultiplier(t - start) else 0
  {
  }

  lemma {:induction false} OneMoreEarned(start: int, epochs: seq<RateEpoch>, n: nat, from: int, t: int)
    requires Ordered(epochs) && n <= |epochs| && from <= t
    ensures SlicesEarned(start, epochs, n, from, t + 1) - SlicesEarned(start, epochs, n, from, t)
            == if (n < |epochs| && epochs[n].start <= t) || t < start then 0
               else RateAmong(epochs, n, t) * MeanMultiplier(t - start)
  {
    if n > 0 {
      OneMoreEarned(start, epochs, n - 1, from, t);
      OneMoreMean(start, epochs, n - 1, from, t);
      Distribute(epochs[n - 1].rate, SliceMean(start, epochs, n - 1, from, t),
                 SliceMean(start, epochs, n - 1, from, t + 1) - SliceMean(start, epochs, n - 1, from, t));
    }
  }

  lemma {:induction false} NothingEarned(start: int, epochs: seq<RateEpoch>, n: nat, from: int, to: int)
    requires Ordered(epochs) && n <= |epochs| && to <= from
    ensures SlicesEarned(start, epochs, n, from, to) == 0
  {
    if n > 0 {
      NothingEarned(start, epochs, n - 1, from, to);
    }
  }

  lemma {:induction false} SlicesEarnSeconds(start: int, epochs: seq<RateEpoch>, from: int, to: int)
    requires Ordered(epochs)
    ensures SlicesEarned(start, epochs, |epochs|, from, to) == EarnedSum(start, epochs, from, to)
    decreases Max(to - from, 0)
  {
    if to <= from {
      NothingEarned(start, epochs, |epochs|, from, to);
    } else {
      SlicesEarnSeconds(start, epochs, from, to - 1);
      OneMoreEarned(start, epochs, |epochs|, from, to - 1);
    }
  }

  // ===== One slice's points =====

  predicate RatesAtMost(epochs: seq<RateEpoch>, top: nat) {
    forall i :: 0 <= i < |epochs| ==> epochs[i].rate <= top
  }

  lemma FlooredPointsRaw(u: int, rate: nat)
    ensures FlooredPoints(u, rate) * (RATE_SCALE * WAD) <= u * rate
    ensures rate <= RATE_SCALE ==> u * rate <= (FlooredPoints(u, rate) + 2) * (RATE_SCALE * WAD)
  {
    var v, points := u / WAD, FlooredPoints(u, rate);
    FloorLe(u, WAD, v);
    FloorLe(u, WAD, v + 1);
    MulMono(v * WAD, u, rate);
    MulMono(u, (v + 1) * WAD, rate);
    FloorLe(v * rate, RATE_SCALE, points);
    FloorLe(v * rate, RATE_SCALE, points + 1);
    assert v * WAD * rate == v * rate * WAD;
    assert (v + 1) * WAD * rate == v * rate * WAD + rate * WAD;
  }

  /** A slice's points are those of its multipliers, up to two raw points and a WAD-th of a second's base share. */
  lemma SliceFollowsRamp(balance: nat, start: int, a: int, b: int, rate: nat)
    requires a <= b
    ensures var points, earned := EpochPoints(balance, start, a, b, rate), WAD * (balance * (rate * MeanBetween(start, a, b)));
            && points * POINT <= earned + TWICE_RAMP * (balance * rate)
            && (rate <= RATE_SCALE ==> earned <= (points + 2) * POINT + TWICE_RAMP * (balance * rate))
  {
    var ramp, mean := RampBetween(start, a, b), MeanBetween(start, a, b);
    RampNearMean(start, a, b);
    FlooredPointsRaw(balance * ramp, rate);
    ShareNearMean(balance, ramp, mean, rate);
    ScalePoints(EpochPoints(balance, start, a, b, rate), balance * ramp * rate, rate <= RATE_SCALE);
  }

  lemma RampNearMean(start: int, a: int, b: int)
    ensures WAD * MeanBetween(start, a, b) - TWICE_RAMP <= RampBetween(start, a, b) * TWICE_RAMP
            <= WAD * MeanBetween(start, a, b) + TWICE_RAMP
  {
    RampIsMeanSum(Age(start, a));
    RampIsMeanSum(Age(start, b));
  }

  lemma ShareNearMean(balance: nat, ramp: int, mean: int, rate: nat)
    requires WAD * mean - TWICE_RAMP <= ramp * TWICE_RAMP <= WAD * mean + TWICE_RAMP
    ensures WAD * (balance * (rate * mean)) - TWICE_RAMP * (balance * rate) <= balance * ramp * rate * TWICE_RAMP
            <= WAD * (balance * (rate * mean)) + TWICE_RAMP * (balance * rate)
  {
    MulMono2(0, balance, 0, rate);
    MulMono(ramp * TWICE_RAMP, WAD * mean + TWICE_RAMP, balance * rate);
    MulMono(WAD * mean - TWICE_RAMP, ramp * TWICE_RAMP, balance * rate);
    ScaleShare(balance, ramp, mean, rate);
  }

  lemma ScaleShare(balance: nat, ramp: int, mean: int, rate: nat)
    ensures ramp * TWICE_RAMP * (balance * rate) == balance * ramp * rate * TWICE_RAMP
    ensures (WAD * mean + TWICE_RAMP) * (balance * rate) == WAD * (balance * (rate * mean)) + TWICE_RAMP * (balance * rate)
    ensures (WAD * mean - TWICE_RAMP) * (balance * rate) == WAD * (balance * (rate * mean)) - TWICE_RAMP * (balance * rate)
  {
    assert ramp * (balance * rate) == balance * ramp * rate;
    assert mean * (balance * rate) == balance * (rate * mean);
  }

  lemma ScalePoints(points: int, shareSeconds: int, bounded: bool)
    requires points * (RATE_SCALE * WAD) <= shareSeconds
    requires bounded ==> shareSeconds <= (points + 2) * (RATE_SCALE * WAD)
    ensures points * POINT <= shareSeconds * TWICE_RAMP
    ensures bounded ==> shareSeconds * TWICE_RAMP <= (points + 2) * POINT
  {
  }

  // ===== Intervals =====

  lemma {:induction false} BetweenFollowsRamp(balance: nat, start: int, epochs: seq<RateEpoch>, n: nat, from: int, to: int, top: nat)
    requires n <= |epochs| && RatesAtMost(epochs, top)
    ensures var points, earned := PointsBetween(balance, start, epochs, n, from, to),
                                  WAD * (balance * SlicesEarned(start, epochs, n, from, to));
            && points * POINT <= earned + n * (TWICE_RAMP * (balance * top))
            && (top <= RATE_SCALE ==> earned <= (points + 2 * n) * POINT + n * (TWICE_RAMP * (balance * top)))
  {
    if n > 0 {
      BetweenFollowsRamp(balance, start, epochs, n - 1, from, to, top);
      SliceWithinTop(balance, start, epochs, n - 1, from, to, top);
      var before, slice := SlicesEarned(start, epochs, n - 1, from, to), epochs[n - 1].rate * SliceMean(start, epochs, n - 1, from, to);
      Distribute(balance, before, slice);
      IntervalsAdd(PointsBetween(balance, start, epochs, n - 1, from, to), SlicePoints(balance, start, epochs, n - 1, from, to),
                   balance * before, balance * slice, 2 * (n - 1), 2, (n - 1) * (TWICE_RAMP * (balance * top)), TWICE_RAMP * (balance * top),
                   top <= RATE_SCALE);
      OneMoreSlack(n, TWICE_RAMP * (balance * top));
    } else {
      assert balance * 0 == 0;
    }
  }

  lemma OneMoreSlack(n: nat, slack: int)
    ensures (n - 1) * slack + slack == n * slack
  {
  }

  /** Two stretches' points, sums and slacks add up. */
  lemma IntervalsAdd(p: int, q: int, e: int, f: int, lost: int, lostToo: int, slack: int, slackToo: int, bounded: bool)
    requires p * POINT <= WAD * e + slack && q * POINT <= WAD * f + slackToo
    requires bounded ==> WAD * e <= (p + lost) * POINT + slack && WAD * f <= (q + lostToo) * POINT + slackToo
    ensures (p + q) * POINT <= WAD * (e + f) + (slack + slackToo)
    ensures bounded ==> WAD * (e + f) <= (p + q + (lost + lostToo)) * POINT + (slack + slackToo)
  {
  }

  lemma SliceWithinTop(balance: nat, start: int, epochs: seq<RateEpoch>, i: nat, from: int, to: int, top: nat)
    requires i < |epochs| && RatesAtMost(epochs, top)
    ensures var points, earned := SlicePoints(balance, start, epochs, i, from, to),
                                  WAD * (balance * (epochs[i].rate * SliceMean(start, epochs, i, from, to)));
            && points * POINT <= earned + TWICE_RAMP * (balance * top)
            && (top <= RATE_SCALE ==> earned <= (points + 2) * POINT + TWICE_RAMP * (balance * top))
  {
    var a, b := SliceStart(epochs, i, from), SliceEnd(epochs, i, to);
    MulMono2(epochs[i].rate, top, balance, balance);
    MulMono2(0, balance, 0, top);
    if a < b {
      SliceFollowsRamp(balance, start, a, b, epochs[i].rate);
    } else {
      assert balance * (epochs[i].rate * 0) == 0;
    }
  }

  lemma PendingFollowsRamp(p: PositionState, epochs: seq<RateEpoch>, now: int, top: nat)
    requires Ordered(epochs) && RatesAtMost(epochs, top)
    ensures var points, earned := PendingPoints(p, epochs, now),
                                  WAD * (p.balance * EarnedSum(p.maturityStart, epochs, p.lastAccrual, now));
            && points * POINT <= earned + |epochs| * (TWICE_RAMP * (p.balance * top))
            && (top <= RATE_SCALE && (p.balance > 0 ==> p.lastAccrual != 0) ==>
                  earned <= (points + 2 * |epochs|) * POINT + |epochs| * (TWICE_RAMP * (p.balance * top)))
  {
    SlicesEarnSeconds(p.maturityStart, epochs, p.lastAccrual, now);
    BetweenFollowsRamp(p.balance, p.maturityStart, epochs, |epochs|, p.lastAccrual, now, top);
    MulMono2(0, p.balance, 0, EarnedSum(p.maturityStart, epochs, p.lastAccrual, now));
    MulMono2(0, p.balance, 0, top);
    MulMono2(0, |epochs|, 0, TWICE_RAMP * (p.balance * top));
    if p.balance == 0 || now <= p.lastAccrual {
      assert p.balance * EarnedSum(p.maturityStart, epochs, p.lastAccrual, now) == 0;
    }
  }

  // ===== Whole schedules =====

  /** Balance times rate in force times multiplier, summed over every second of the schedule up to `asOf`. */
  function RampedIntegral(p: PositionState, epochs: seq<RateEpoch>, steps: seq<Step>, asOf: int): int
    decreases |steps|
  {
    if |steps| == 0 then p.balance * EarnedSum(p.maturityStart, epochs, p.lastAccrual, asOf)
    else p.balance * EarnedSum(p.maturityStart, epochs, p.lastAccrual, steps[0].at)
         + RampedIntegral(Apply(p, epochs, steps[0]), epochs, steps[1..], asOf)
  }

  /** The balances held between steps, added up. */
  function HeldBetween(p: PositionState, epochs: seq<RateEpoch>, steps: seq<Step>): nat
    decreases |steps|
  {
    p.balance + if |steps| == 0 then 0 else HeldBetween(Apply(p, epochs, steps[0]), epochs, steps[1..])
  }

  /** What the WAD-scaled ramp can be off by: for each epoch, a WAD-th of a second's base share of each balance held. */
  function RampSlack(epochs: nat, top: nat, held: nat): nat {
    epochs * (TWICE_RAMP * (held * top))
  }

  lemma SlacksAdd(epochs: nat, top: nat, held: nat, more: nat)
    ensures RampSlack(epochs, top, held) + RampSlack(epochs, top, more) == RampSlack(epochs, top, held + more)
  {
    assert (held + more) * top == held * top + more * top;
    Distribute(epochs, TWICE_RAMP * (held * top), TWICE_RAMP * (more * top));
  }

  /** The points a schedule adds to a state. */
  function Gained(p: PositionState, epochs: seq<RateEpoch>, steps: seq<Step>, asOf: int): int {
    PointsAt(Run(p, epochs, steps), epochs, asOf) - p.accrued
  }

  lemma StepThenRest(p: PositionState, epochs: seq<RateEpoch>, steps: seq<Step>, asOf: int, top: nat, bounded: bool)
    requires Ordered(epochs) && RatesAtMost(epochs, top) && |steps| > 0
    requires var next, rest := Apply(p, epochs, steps[0]), steps[1..];
             && Gained(next, epochs, rest, asOf) * POINT
                <= WAD * RampedIntegral(next, epochs, rest, asOf) + RampSlack(|epochs|, top, HeldBetween(next, epochs, rest))
             && (bounded ==>
                   && top <= RATE_SCALE && (p.balance > 0 ==> p.lastAccrual != 0)
                   && WAD * RampedIntegral(next, epochs, rest, asOf)
                      <= (Gained(next, epochs, rest, asOf) + 2 * |epochs| * |steps|) * POINT
                         + RampSlack(|epochs|, top, HeldBetween(next, epochs, rest)))
    ensures Gained(p, epochs, steps, asOf) * POINT
            <= WAD * RampedIntegral(p, epochs, steps, asOf) + RampSlack(|epochs|, top, HeldBetween(p, epochs, steps))
    ensures bounded ==>
              WAD * RampedIntegral(p, epochs, steps, asOf)
              <= (Gained(p, epochs, steps, asOf) + 2 * |epochs| * (|steps| + 1)) * POINT
                 + RampSlack(|epochs|, top, HeldBetween(p, epochs, steps))
  {
    var next, rest := Apply(p, epochs, steps[0]), steps[1..];
    PendingFollowsRamp(p, epochs, steps[0].at, top);
    StepCredits(p, epochs, steps[0]);
    SlacksAdd(|epochs|, top, p.balance, HeldBetween(next, epochs, rest));
    LossesAdd(|epochs|, |steps|);
    IntervalsAdd(PendingPoints(p, epochs, steps[0].at), Gained(next, epochs, rest, asOf),
                 p.balance * EarnedSum(p.maturityStart, epochs, p.lastAccrual, steps[0].at), RampedIntegral(next, epochs, rest, asOf),
                 2 * |epochs|, 2 * |epochs| * |steps|, RampSlack(|epochs|, top, p.balance),
                 RampSlack(|epochs|, top, HeldBetween(next, epochs, rest)), bounded);
  }

  /** From any state, over any schedule: points never exceed the ramped integral by more than the slack. */
  lemma {:induction false} PointsAtMostRamped(p: PositionState, epochs: seq<RateEpoch>, steps: seq<Step>, asOf: int, top: nat)
    requires Ordered(epochs) && RatesAtMost(epochs, top)
    ensures Gained(p, epochs, steps, asOf) * POINT
            <= WAD * RampedIntegral(p, epochs, steps, asOf) + RampSlack(|epochs|, top, HeldBetween(p, epochs, steps))
    decreases |steps|
  {
    if |steps| == 0 {
      PendingFollowsRamp(p, epochs, asOf, top);
    } else {
      PointsAtMostRamped(Apply(p, epochs, steps[0]), epochs, steps[1..], asOf, top);
      StepThenRest(p, epochs, steps, asOf, top, false);
    }
  }

  /** In time order, at rates within the scale, they fall short of it by two raw points per epoch and step more. */
  lemma {:induction false} PointsAtLeastRamped(p: PositionState, epochs: seq<RateEpoch>, steps: seq<Step>, asOf: int, top: nat)
    requires Ordered(epochs) && RatesAtMost(epochs, top) && top <= RATE_SCALE
    requires Sound(p) && TimeOrdered(steps, Max(p.lastAccrual, 1), asOf)
    ensures WAD * RampedIntegral(p, epochs, steps, asOf)
            <= (Gained(p, epochs, steps, asOf) + 2 * |epochs| * (|steps| + 1)) * POINT
               + RampSlack(|epochs|, top, HeldBetween(p, epochs, steps))
    decreases |steps|
  {
    if |steps| == 0 {
      PendingFollowsRamp(p, epochs, asOf, top);
    } else {
      var next := Apply(p, epochs, steps[0]);
      StepKeepsSound(p, epochs, steps[0]);
      PointsAtLeastRamped(next, epochs, steps[1..], asOf, top);
      PointsAtMostRamped(next, epochs, steps[1..], asOf, top);
      StepThenRest(p, epochs, steps, asOf, top, true);
    }
  }

  /** So every owner the replay credits: its points are the ramped integral of its own schedule, up to the floors. */
  lemma ReplayFollowsRamp(events: seq<CollateralEvent>, epochs: seq<RateEpoch>, asOf: int, o: Owner, top: nat)
    requires WellFormed(events, asOf) && Ordered(epochs) && o in OwnersOf(events) && RatesAtMost(epochs, top)
    ensures NoneNegative(events)
    ensures var steps := OwnerSteps(events, o);
            var points, ramped, slack := ReplayedPoints(events, epochs, asOf)[o].points,
                                         WAD * RampedIntegral(EMPTY_POSITION, epochs, steps, asOf),
                                         RampSlack(|epochs|, top, HeldBetween(EMPTY_POSITION, epochs, steps));
            && points * POINT <= ramped + slack
            && (top <= RATE_SCALE && NoneBefore(events, 1) ==>
                  ramped <= (points + 2 * |epochs| * (|steps| + 1)) * POINT + slack)
  {
    WellFormedPrefix(events, asOf, |events|);
    var steps := OwnerSteps(events, o);
    PointsAtMostRamped(EMPTY_POSITION, epochs, steps, asOf, top);
    if top <= RATE_SCALE && NoneBefore(events, 1) {
      LastByAsOf(events, asOf, o);
      OwnerStepsOrdered(events, asOf, o, 1);
      PointsAtLeastRamped(EMPTY_POSITION, epochs, steps, asOf, top);
    }
  }

  /** A year's ramp to the unit: one share held a year from its supply at one point a day earns 547.5 points. */
  lemma YearOnRamp()
    ensures var epochs := [RateEpoch(0, WAD)];
            PointsAt(Tracked(EMPTY_POSITION, SHARE_UNIT, epochs, 1_000), epochs, 1_000 + MATURITY_RAMP) == 547_500_000_000_000_000_000
  {
    var epochs := [RateEpoch(0, WAD)];
    var held := Tracked(EMPTY_POSITION, SHARE_UNIT, epochs, 1_000);
    assert held == PositionState(SHARE_UNIT, 0, 1_000, 1_000);
    var now := 1_000 + MATURITY_RAMP;
    assert RampIntegral(0) == 0 && RampIntegral(MATURITY_RAMP) == 47_304_000 * WAD;
    assert PointsBetween(SHARE_UNIT, 1_000, epochs, 1, 1_000, now) == SlicePoints(SHARE_UNIT, 1_000, epochs, 0, 1_000, now);
  }
}
