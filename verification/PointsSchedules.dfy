/**
 * Whole schedules of a position: what extra checkpoints can cost, how far points stay from the
 * base-rate integral, and which rate epochs cannot matter.
 */
module PointsSchedules {
  import opened Arith
  import opened RateEpochs
  import opened MorphoPoints

  // An `Extra` step is a checkpoint that the schedule without it would not make.
  datatype Step =
    | Supply(amount: nat, at: int)
    | Remove(amount: nat, at: int)
    | Checkpoint(at: int)
    | Extra(at: int)

  function Apply(p: PositionState, epochs: seq<RateEpoch>, step: Step): PositionState {
    match step
    case Supply(amount, at) => Tracked(p, amount, epochs, at)
    case Remove(amount, at) => Untracked(p, amount, epochs, at)
    case Checkpoint(at) => Checkpointed(p, epochs, at)
    case Extra(at) => Checkpointed(p, epochs, at)
  }

  function Run(p: PositionState, epochs: seq<RateEpoch>, steps: seq<Step>): PositionState
    decreases |steps|
  {
    if |steps| == 0 then p else Run(Apply(p, epochs, steps[0]), epochs, steps[1..])
  }

  function WithoutExtras(steps: seq<Step>): seq<Step>
    decreases |steps|
  {
    if |steps| == 0 then []
    else if steps[0].Extra? then WithoutExtras(steps[1..])
    else [steps[0]] + WithoutExtras(steps[1..])
  }

  function ExtraCount(steps: seq<Step>): nat
    decreases |steps|
  {
    if |steps| == 0 then 0 else (if steps[0].Extra? then 1 else 0) + ExtraCount(steps[1..])
  }

  /** Steps in time order, none before `from`, none after `asOf`. */
  predicate TimeOrdered(steps: seq<Step>, from: int, asOf: int)
    decreases |steps|
  {
    if |steps| == 0 then from <= asOf
    else from <= steps[0].at && TimeOrdered(steps[1..], steps[0].at, asOf)
  }

  // ===== Extra checkpoints =====

  /** `p` has the same stream as `q` but was checkpointed more often, at a cost of at most `loss`. */
  ghost predicate Shadows(p: PositionState, q: PositionState, epochs: seq<RateEpoch>, loss: nat) {
    && p.balance == q.balance && p.maturityStart == q.maturityStart
    && 0 <= q.lastAccrual <= p.lastAccrual && (q.balance > 0 ==> 0 < q.lastAccrual)
    && forall now :: p.lastAccrual <= now ==>
         PointsAt(p, epochs, now) <= PointsAt(q, epochs, now) <= PointsAt(p, epochs, now) + loss
  }

  lemma ExtraCheckpointCost(p: PositionState, q: PositionState, epochs: seq<RateEpoch>, loss: nat, t: int)
    requires Ordered(epochs) && RatesBounded(epochs) && Shadows(p, q, epochs, loss)
    requires 0 < t && p.lastAccrual <= t
    ensures Shadows(Checkpointed(p, epochs, t), q, epochs, loss + 2)
  {
    var p' := Checkpointed(p, epochs, t);
    forall now | t <= now
      ensures PointsAt(p', epochs, now) <= PointsAt(q, epochs, now) <= PointsAt(p', epochs, now) + loss + 2
    {
      assert PointsAt(p, epochs, now) <= PointsAt(q, epochs, now) <= PointsAt(p, epochs, now) + loss;
      PointsBetweenSplit(p.balance, p.maturityStart, epochs, |epochs|, p.lastAccrual, t, now);
      EmptyBetween(p.balance, p.maturityStart, epochs, |epochs|, t);
      EmptyBetween(p.balance, p.maturityStart, epochs, |epochs|, p.lastAccrual);
    }
  }

  lemma {:induction false} EmptyBetween(balance: nat, start: int, epochs: seq<RateEpoch>, n: nat, t: int)
    requires n <= |epochs|
    ensures PointsBetween(balance, start, epochs, n, t, t) == 0
  {
    if n > 0 {
      EmptyBetween(balance, start, epochs, n - 1, t);
    }
  }

  lemma SharedStep(p: PositionState, q: PositionState, epochs: seq<RateEpoch>, loss: nat, step: Step)
    requires Shadows(p, q, epochs, loss) && 0 < step.at && p.lastAccrual <= step.at
    ensures Shadows(Apply(p, epochs, step), Apply(q, epochs, step), epochs, loss)
  {
  }

  lemma {:induction false} ExtraCheckpointsFrom(p: PositionState, q: PositionState, epochs: seq<RateEpoch>,
                                                steps: seq<Step>, loss: nat, asOf: int)
    requires Ordered(epochs) && RatesBounded(epochs) && Shadows(p, q, epochs, loss)
    requires TimeOrdered(steps, Max(p.lastAccrual, 1), asOf)
    ensures var with, without := PointsAt(Run(p, epochs, steps), epochs, asOf),
                                 PointsAt(Run(q, epochs, WithoutExtras(steps)), epochs, asOf);
            with <= without <= with + loss + 2 * ExtraCount(steps)
    decreases |steps|
  {
    if |steps| > 0 {
      var step, rest := steps[0], steps[1..];
      var p' := Apply(p, epochs, step);
      if step.Extra? {
        ExtraCheckpointCost(p, q, epochs, loss, step.at);
        ExtraCheckpointsFrom(p', q, epochs, rest, loss + 2, asOf);
      } else {
        SharedStep(p, q, epochs, loss, step);
        ExtraCheckpointsFrom(p', Apply(q, epochs, step), epochs, rest, loss, asOf);
        assert ([step] + WithoutExtras(rest))[1..] == WithoutExtras(rest);
      }
    }
  }

  /**
   * Inserting checkpoints anywhere in a position's schedule never raises its final points, and
   * lowers them by at most 2 raw units each.
   */
  lemma ExtraCheckpoints(epochs: seq<RateEpoch>, steps: seq<Step>, asOf: int)
    requires Ordered(epochs) && RatesBounded(epochs) && TimeOrdered(steps, 1, asOf)
    ensures var with, without := PointsAt(Run(EMPTY_POSITION, epochs, steps), epochs, asOf),
                                 PointsAt(Run(EMPTY_POSITION, epochs, WithoutExtras(steps)), epochs, asOf);
            with <= without <= with + 2 * ExtraCount(steps)
  {
    ExtraCheckpointsFrom(EMPTY_POSITION, EMPTY_POSITION, epochs, steps, 0, asOf);
  }

  /**
   * Why the schedule must start after time 0: a zero `lastAccrual` means "never accrued", so a
   * position opened at time 0 earns nothing until a later checkpoint stamps it, and then an extra
   * checkpoint does raise its points.
   */
  lemma CheckpointAfterTimeZeroGains()
    ensures var epochs := [RateEpoch(0, WAD)];
            var steps := [Supply(SHARE_UNIT, 0), Extra(DAY)];
            && Ordered(epochs) && RatesBounded(epochs) && TimeOrdered(steps, 0, 2 * DAY)
            && PointsAt(Run(EMPTY_POSITION, epochs, steps), epochs, 2 * DAY)
               > PointsAt(Run(EMPTY_POSITION, epochs, WithoutExtras(steps)), epochs, 2 * DAY)
  {
    var epochs := [RateEpoch(0, WAD)];
    var supplied := Tracked(EMPTY_POSITION, SHARE_UNIT, epochs, 0);
    assert supplied == PositionState(SHARE_UNIT, 0, 0, 0);
    var stamped := Checkpointed(supplied, epochs, DAY);
    assert stamped == PositionState(SHARE_UNIT, 0, 0, DAY);
    var steps := [Supply(SHARE_UNIT, 0), Extra(DAY)];
    assert steps[1..] == [Extra(DAY)] && [Extra(DAY)][1..] == [];
    assert Run(EMPTY_POSITION, epochs, steps) == Run(supplied, epochs, [Extra(DAY)]) == Run(stamped, epochs, []) == stamped;
    assert WithoutExtras([Extra(DAY)]) == [];
    assert WithoutExtras(steps) == [Supply(SHARE_UNIT, 0)];
    assert [Supply(SHARE_UNIT, 0)][1..] == [];
    assert Run(EMPTY_POSITION, epochs, WithoutExtras(steps)) == Run(supplied, epochs, []) == supplied;
    RampSlope(DAY, 2 * DAY);
    var u := SHARE_UNIT * RampBetween(0, DAY, 2 * DAY);
    MulMono2(SHARE_UNIT, SHARE_UNIT, DAY * WAD, RampBetween(0, DAY, 2 * DAY));
    FloorLe(u, WAD, SHARE_UNIT * DAY);
    MulMono2(SHARE_UNIT * DAY, u / WAD, WAD, WAD);
    FloorLe(u / WAD * WAD, RATE_SCALE, 1);
    assert PointsBetween(SHARE_UNIT, 0, epochs, 1, DAY, 2 * DAY) == SlicePoints(SHARE_UNIT, 0, epochs, 0, DAY, 2 * DAY);
  }

  /** Checkpointing `p` at `t` gains under no ordered rate schedule. */
  ghost predicate CheckpointNeverGains(p: PositionState, t: int) {
    forall epochs: seq<RateEpoch>, now: int :: Ordered(epochs) && t <= now ==>
      PointsAt(Checkpointed(p, epochs, t), epochs, now) <= PointsAt(p, epochs, now)
  }

  /** A held position gains from no checkpoint if and only if it is not stamped with the zero time. */
  lemma CheckpointNeverGainsExactly(p: PositionState, t: int)
    requires p.balance > 0 && 0 <= p.lastAccrual <= t && p.maturityStart <= t && 0 < t
    ensures CheckpointNeverGains(p, t) <==> p.lastAccrual != 0
  {
    if p.lastAccrual != 0 {
      forall epochs: seq<RateEpoch>, now: int | Ordered(epochs) && t <= now
        ensures PointsAt(Checkpointed(p, epochs, t), epochs, now) <= PointsAt(p, epochs, now)
      {
        PointsBetweenSplit(p.balance, p.maturityStart, epochs, |epochs|, p.lastAccrual, t, now);
      }
    } else {
      var epochs := [RateEpoch(0, RATE_SCALE)];
      UnstampedEarnsNothing(p, t);
      assert PointsAt(Checkpointed(p, epochs, t), epochs, t + 1) > PointsAt(p, epochs, t + 1);
    }
  }

  /** At one raw point per share and second, the second after the stamp already earns. */
  lemma UnstampedEarnsNothing(p: PositionState, t: int)
    requires p.balance > 0 && p.lastAccrual == 0 && p.maturityStart <= t && 0 < t
    ensures var epochs := [RateEpoch(0, RATE_SCALE)];
            PointsAt(p, epochs, t + 1) == p.accrued < PointsAt(Checkpointed(p, epochs, t), epochs, t + 1)
  {
    var epochs := [RateEpoch(0, RATE_SCALE)];
    RampSlope(t - p.maturityStart, t + 1 - p.maturityStart);
    var ramp := RampBetween(p.maturityStart, t, t + 1);
    MulMono2(1, p.balance, WAD, ramp);
    FloorLe(p.balance * ramp, WAD, 1);
    var v := p.balance * ramp / WAD;
    FloorLe(v * RATE_SCALE, RATE_SCALE, v);
    assert PointsBetween(p.balance, p.maturityStart, epochs, 1, t, t + 1)
           == SlicePoints(p.balance, p.maturityStart, epochs, 0, t, t + 1);
  }

  // ===== Points against the base-rate integral =====

  /** Balance times the rate in force, summed over every second of the schedule up to `asOf`. */
  function BaseIntegral(p: PositionState, epochs: seq<RateEpoch>, steps: seq<Step>, asOf: int): int
    decreases |steps|
  {
    if |steps| == 0 then p.balance * SecondSum(epochs, p.lastAccrual, asOf)
    else p.balance * SecondSum(epochs, p.lastAccrual, steps[0].at)
         + BaseIntegral(Apply(p, epochs, steps[0]), epochs, steps[1..], asOf)
  }

  lemma EpochPointsBounds(balance: nat, start: int, a: int, b: int, rate: nat)
    requires a <= b
    ensures EpochPoints(balance, start, a, b, rate) * RATE_SCALE <= 2 * (balance * (rate * (b - a)))
    ensures start <= a && rate <= RATE_SCALE ==>
              balance * (rate * (b - a)) <= (EpochPoints(balance, start, a, b, rate) + 2) * RATE_SCALE
  {
    RampBetweenBounds(start, a, b);
    var ramp := RampBetween(start, a, b);
    Regroup(balance, b - a, rate);
    RampShare(balance, ramp, 2 * (b - a));
    FlooredPointsUpper(balance * ramp, balance * (2 * (b - a)), rate);
    if start <= a && rate <= RATE_SCALE {
      RampSlope(a - start, b - start);
      RampShare(balance, b - a, 0);
      MulMono((b - a) * WAD, ramp, balance);
      FlooredPointsLower(balance * ramp, balance * (b - a), rate);
    }
  }

  lemma Regroup(balance: nat, length: nat, rate: nat)
    ensures balance * (2 * length) * rate == 2 * (balance * (rate * length))
    ensures balance * length * rate == balance * (rate * length)
  {
    assert balance * length * rate == balance * (rate * length);
    assert balance * (2 * length) * rate == 2 * (balance * length * rate);
  }

  lemma RampShare(balance: nat, ramp: int, seconds: nat)
    ensures ramp <= seconds * WAD ==> balance * ramp <= balance * seconds * WAD
    ensures ramp * WAD * balance == balance * ramp * WAD
  {
    if ramp <= seconds * WAD {
      MulMono(ramp, seconds * WAD, balance);
      assert seconds * WAD * balance == balance * seconds * WAD;
    }
  }

  lemma FlooredPointsUpper(u: int, top: int, rate: nat)
    requires u <= top * WAD
    ensures FlooredPoints(u, rate) * RATE_SCALE <= top * rate
  {
    FloorBelow(u, WAD, top);
    MulMono(u / WAD, top, rate);
    FloorLe(u / WAD * rate, RATE_SCALE, FlooredPoints(u, rate));
  }

  lemma FlooredPointsLower(u: int, bottom: int, rate: nat)
    requires bottom * WAD <= u
    ensures bottom * rate <= (FlooredPoints(u, rate) + 1) * RATE_SCALE
  {
    FloorLe(u, WAD, bottom);
    MulMono(bottom, u / WAD, rate);
    FloorLe(u / WAD * rate, RATE_SCALE, FlooredPoints(u, rate) + 1);
  }

  /** Pending points are at most twice, and (unclamped) at least once, the balance times the rate seconds. */
  lemma {:induction false} PointsBetweenBounds(balance: nat, start: int, epochs: seq<RateEpoch>, n: nat, from: int, to: int)
    requires n <= |epochs|
    ensures PointsBetween(balance, start, epochs, n, from, to) * RATE_SCALE <= 2 * (balance * SliceSum(epochs, n, from, to))
    ensures start <= from && RatesBounded(epochs) ==>
              balance * SliceSum(epochs, n, from, to)
              <= (PointsBetween(balance, start, epochs, n, from, to) + 2 * n) * RATE_SCALE
  {
    if n > 0 {
      PointsBetweenBounds(balance, start, epochs, n - 1, from, to);
      SlicePointsBounds(balance, start, epochs, n - 1, from, to);
      BoundsAdd(balance, SliceSum(epochs, n - 1, from, to), epochs[n - 1].rate * SliceLength(epochs, n - 1, from, to),
                PointsBetween(balance, start, epochs, n - 1, from, to), SlicePoints(balance, start, epochs, n - 1, from, to), n);
    }
  }

  lemma SlicePointsBounds(balance: nat, start: int, epochs: seq<RateEpoch>, i: nat, from: int, to: int)
    requires i < |epochs|
    ensures var earned, base := SlicePoints(balance, start, epochs, i, from, to), epochs[i].rate * SliceLength(epochs, i, from, to);
            && earned * RATE_SCALE <= 2 * (balance * base)
            && (start <= from && RatesBounded(epochs) ==> balance * base <= (earned + 2) * RATE_SCALE)
  {
    var a, b := SliceStart(epochs, i, from), SliceEnd(epochs, i, to);
    if a < b {
      EpochPointsBounds(balance, start, a, b, epochs[i].rate);
    }
  }

  lemma BoundsAdd(balance: nat, before: nat, base: nat, points: nat, earned: nat, n: nat)
    requires points * RATE_SCALE <= 2 * (balance * before) && earned * RATE_SCALE <= 2 * (balance * base)
    ensures (points + earned) * RATE_SCALE <= 2 * (balance * (before + base))
    ensures balance * before <= (points + 2 * (n - 1)) * RATE_SCALE && balance * base <= (earned + 2) * RATE_SCALE
            ==> balance * (before + base) <= (points + earned + 2 * n) * RATE_SCALE
  {
    assert balance * (before + base) == balance * before + balance * base;
  }

  lemma PendingBounds(p: PositionState, epochs: seq<RateEpoch>, now: int)
    requires Ordered(epochs)
    ensures PendingPoints(p, epochs, now) * RATE_SCALE <= 2 * (p.balance * SecondSum(epochs, p.lastAccrual, now))
    ensures p.maturityStart <= p.lastAccrual && RatesBounded(epochs) && (p.balance > 0 ==> p.lastAccrual != 0) ==>
              p.balance * SecondSum(epochs, p.lastAccrual, now) <= (PendingPoints(p, epochs, now) + 2 * |epochs|) * RATE_SCALE
  {
    SlicesAreSeconds(epochs, p.lastAccrual, now);
    PointsBetweenBounds(p.balance, p.maturityStart, epochs, |epochs|, p.lastAccrual, now);
    if p.balance == 0 || now <= p.lastAccrual {
      assert p.balance * SecondSum(epochs, p.lastAccrual, now) == 0;
    }
  }

  /** The blended start is a weighted mean, so it never lies after the checkpoint. */
  lemma BlendWithin(balance: nat, start: int, amount: nat, now: int)
    requires balance > 0 && 0 <= start <= now
    ensures start <= (balance * start + amount * now) / (balance + amount) <= now
  {
    MulMono(start, now, balance);
    MulMono(start, now, amount);
    assert start * (balance + amount) == start * balance + start * amount;
    assert now * (balance + amount) == now * balance + now * amount;
    FloorLe(balance * start + amount * now, balance + amount, start);
    FloorBelow(balance * start + amount * now, balance + amount, now);
  }

  /**
   * Supplying neither ages nor rejuvenates what is held: the amount-weighted age of the blend is the
   * old one's (the new amount is of age 0), rounded up by less than one second per unit.
   */
  lemma SupplyKeepsWeightedAge(p: PositionState, amount: nat, epochs: seq<RateEpoch>, now: int)
    requires p.balance + amount > 0
    ensures var q := Tracked(p, amount, epochs, now);
            p.balance * (now - p.maturityStart) <= q.balance * (now - q.maturityStart)
            < p.balance * (now - p.maturityStart) + q.balance
  {
    if p.balance > 0 {
      BlendKeepsAge(p.balance, p.maturityStart, amount, now);
    } else {
      assert (p.balance + amount) * (now - now) == 0 == p.balance * (now - p.maturityStart);
    }
  }

  /** What stays when collateral goes keeps its age, and a checkpoint moves neither balance nor age. */
  lemma RemovalKeepsAge(p: PositionState, amount: nat, epochs: seq<RateEpoch>, now: int)
    ensures var q := Untracked(p, amount, epochs, now);
            && q.maturityStart == p.maturityStart && q.lastAccrual == now && q.accrued == PointsAt(p, epochs, now)
            && (amount <= p.balance ==> q.balance + amount == p.balance) && (p.balance < amount ==> q.balance == 0)
    ensures var c := Checkpointed(p, epochs, now);
            c == PositionState(p.balance, PointsAt(p, epochs, now), p.maturityStart, now)
  {
  }

  predicate StartWithinStamp(p: PositionState) {
    0 <= p.maturityStart <= p.lastAccrual
  }

  /** From time 0 on, every step keeps the maturity start at or before the last accrual. */
  lemma StepKeepsStart(p: PositionState, epochs: seq<RateEpoch>, step: Step)
    requires StartWithinStamp(p) && p.lastAccrual <= step.at
    ensures StartWithinStamp(Apply(p, epochs, step))
  {
    if step.Supply? && p.balance > 0 {
      BlendWithin(p.balance, p.maturityStart, step.amount, step.at);
    }
  }

  /** A live position is stamped after time 0 too, so that its stamp does not read as "never accrued". */
  predicate Sound(p: PositionState) {
    StartWithinStamp(p) && (p.balance > 0 ==> p.lastAccrual > 0)
  }

  lemma StepKeepsSound(p: PositionState, epochs: seq<RateEpoch>, step: Step)
    requires Sound(p) && 0 < step.at && p.lastAccrual <= step.at
    ensures Sound(Apply(p, epochs, step))
  {
    StepKeepsStart(p, epochs, step);
  }

  /** Every step credits what was pending, and nothing else. */
  lemma StepCredits(p: PositionState, epochs: seq<RateEpoch>, step: Step)
    ensures Apply(p, epochs, step).accrued == p.accrued + PendingPoints(p, epochs, step.at)
    ensures Apply(p, epochs, step).lastAccrual == step.at
  {
  }

  lemma LossesAdd(epochs: nat, steps: nat)
    ensures 2 * epochs * (steps + 1) == 2 * epochs * steps + 2 * epochs
  {
  }

  /** Every state, every schedule, in whatever order and at whatever times: at most twice the base integral. */
  lemma {:induction false} PointsAtMostTwiceBase(p: PositionState, epochs: seq<RateEpoch>, steps: seq<Step>, asOf: int)
    requires Ordered(epochs)
    ensures (PointsAt(Run(p, epochs, steps), epochs, asOf) - p.accrued) * RATE_SCALE <= 2 * BaseIntegral(p, epochs, steps, asOf)
    decreases |steps|
  {
    if |steps| == 0 {
      PendingBounds(p, epochs, asOf);
    } else {
      PendingBounds(p, epochs, steps[0].at);
      StepCredits(p, epochs, steps[0]);
      PointsAtMostTwiceBase(Apply(p, epochs, steps[0]), epochs, steps[1..], asOf);
    }
  }

  /** From time 0 on, the maturity start never exceeds the last accrual. */
  lemma {:induction false} StartNeverExceedsStamp(p: PositionState, epochs: seq<RateEpoch>, steps: seq<Step>, asOf: int)
    requires StartWithinStamp(p) && TimeOrdered(steps, p.lastAccrual, asOf)
    ensures StartWithinStamp(Run(p, epochs, steps))
    decreases |steps|
  {
    if |steps| > 0 {
      StepKeepsStart(p, epochs, steps[0]);
      StepCredits(p, epochs, steps[0]);
      StartNeverExceedsStamp(Apply(p, epochs, steps[0]), epochs, steps[1..], asOf);
    }
  }

  lemma {:induction false} PointsAtLeastBaseFrom(p: PositionState, epochs: seq<RateEpoch>, steps: seq<Step>, asOf: int)
    requires Ordered(epochs) && RatesBounded(epochs) && Sound(p) && TimeOrdered(steps, Max(p.lastAccrual, 1), asOf)
    ensures BaseIntegral(p, epochs, steps, asOf)
            <= (PointsAt(Run(p, epochs, steps), epochs, asOf) - p.accrued + 2 * |epochs| * (|steps| + 1)) * RATE_SCALE
    decreases |steps|
  {
    if |steps| == 0 {
      PendingBounds(p, epochs, asOf);
    } else {
      StepKeepsSound(p, epochs, steps[0]);
      PendingBounds(p, epochs, steps[0].at);
      StepCredits(p, epochs, steps[0]);
      PointsAtLeastBaseFrom(Apply(p, epochs, steps[0]), epochs, steps[1..], asOf);
      LossesAdd(|epochs|, |steps|);
    }
  }

  /**
   * Points never exceed twice the base-rate integral of the balance history, for every schedule; for
   * one in time order from time 1 they fall short of that integral by at most 2 raw units per epoch
   * and checkpoint.
   */
  lemma PointsWithinBase(epochs: seq<RateEpoch>, steps: seq<Step>, asOf: int)
    requires Ordered(epochs)
    ensures var points, base := PointsAt(Run(EMPTY_POSITION, epochs, steps), epochs, asOf),
                                BaseIntegral(EMPTY_POSITION, epochs, steps, asOf);
            && points * RATE_SCALE <= 2 * base
            && (RatesBounded(epochs) && TimeOrdered(steps, 1, asOf) ==>
                  base <= (points + 2 * |epochs| * (|steps| + 1)) * RATE_SCALE)
  {
    PointsAtMostTwiceBase(EMPTY_POSITION, epochs, steps, asOf);
    if RatesBounded(epochs) && TimeOrdered(steps, 1, asOf) {
      PointsAtLeastBaseFrom(EMPTY_POSITION, epochs, steps, asOf);
    }
  }

  // ===== Rate epochs that cannot matter =====

  lemma {:induction false} LaterEpochIgnoredBetween(balance: nat, start: int, epochs: seq<RateEpoch>, n: nat,
                                                    from: int, to: int, e: RateEpoch)
    requires n <= |epochs| && to <= e.start
    ensures PointsBetween(balance, start, epochs + [e], n, from, to) == PointsBetween(balance, start, epochs, n, from, to)
  {
    if n > 0 {
      LaterEpochIgnoredBetween(balance, start, epochs, n - 1, from, to, e);
    }
  }

  lemma LaterEpochIgnoredPending(p: PositionState, epochs: seq<RateEpoch>, now: int, e: RateEpoch)
    requires now <= e.start
    ensures PendingPoints(p, epochs + [e], now) == PendingPoints(p, epochs, now)
  {
    LaterEpochIgnoredBetween(p.balance, p.maturityStart, epochs, |epochs|, p.lastAccrual, now, e);
    assert SlicePoints(p.balance, p.maturityStart, epochs + [e], |epochs|, p.lastAccrual, now) == 0;
  }

  /** Rates are forward-only: an epoch appended at or after `asOf` changes nobody's points at `asOf`. */
  lemma {:induction false} LaterEpochIgnored(p: PositionState, epochs: seq<RateEpoch>, steps: seq<Step>, from: int, asOf: int, e: RateEpoch)
    requires TimeOrdered(steps, from, asOf) && asOf <= e.start
    ensures Run(p, epochs + [e], steps) == Run(p, epochs, steps)
    ensures PointsAt(Run(p, epochs + [e], steps), epochs + [e], asOf) == PointsAt(Run(p, epochs, steps), epochs, asOf)
    decreases |steps|
  {
    if |steps| == 0 {
      LaterEpochIgnoredPending(p, epochs, asOf, e);
    } else {
      FirstStepByAsOf(steps, from, asOf);
      LaterEpochIgnoredPending(p, epochs, steps[0].at, e);
      LaterEpochIgnored(Apply(p, epochs, steps[0]), epochs, steps[1..], steps[0].at, asOf, e);
    }
  }

  lemma {:induction false} FirstStepByAsOf(steps: seq<Step>, from: int, asOf: int)
    requires TimeOrdered(steps, from, asOf)
    ensures from <= asOf && (|steps| > 0 ==> steps[0].at <= asOf)
    decreases |steps|
  {
    if |steps| > 0 {
      FirstStepByAsOf(steps[1..], steps[0].at, asOf);
    }
  }

  lemma {:induction false} EndedEpochsEarnNothing(balance: nat, start: int, epochs: seq<RateEpoch>, j: nat, n: nat, from: int, to: int)
    requires Ordered(epochs) && n <= j < |epochs| && epochs[j].start <= from
    ensures PointsBetween(balance, start, epochs, n, from, to) == 0
  {
    if n > 0 {
      EndedEpochsEarnNothing(balance, start, epochs, j, n - 1, from, to);
      OrderedStarts(epochs, n, j);
    }
  }

  lemma {:induction false} SkipEndedBetween(balance: nat, start: int, epochs: seq<RateEpoch>, j: nat, n: nat, from: int, to: int)
    requires Ordered(epochs) && j < |epochs| && epochs[j].start <= from && n <= |epochs| - j
    ensures PointsBetween(balance, start, epochs[j..], n, from, to) == PointsBetween(balance, start, epochs, j + n, from, to)
  {
    if n == 0 {
      EndedEpochsEarnNothing(balance, start, epochs, j, j, from, to);
    } else {
      SkipEndedBetween(balance, start, epochs, j, n - 1, from, to);
    }
  }

  /** Starting the sum at the epoch in force at `lastAccrual`, as the contract does, gives the same points. */
  lemma SkippingEndedEpochs(p: PositionState, epochs: seq<RateEpoch>, j: nat, now: int)
    requires Ordered(epochs) && j < |epochs| && epochs[j].start <= p.lastAccrual
    ensures PendingPoints(p, epochs[j..], now) == PendingPoints(p, epochs, now)
  {
    SkipEndedBetween(p.balance, p.maturityStart, epochs, j, |epochs| - j, p.lastAccrual, now);
  }

  lemma BlendKeepsAge(balance: nat, start: int, amount: nat, now: int)
    requires balance > 0
    ensures var total := balance + amount;
            var blended := (balance * start + amount * now) / total;
            balance * (now - start) <= total * (now - blended) < balance * (now - start) + total
  {
    var total := balance + amount;
    var weighted := balance * start + amount * now;
    var blended, rest := weighted / total, weighted % total;
    assert weighted == total * blended + rest && 0 <= rest < total;
    assert total * (now - blended) == total * now - total * blended;
    assert total * now == balance * now + amount * now;
    assert balance * (now - start) == balance * now - balance * start;
  }
}
