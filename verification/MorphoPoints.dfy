/**
 * Participation points for collateral: the maturity ramp's integral, the double-floored epoch
 * accrual, checkpointed positions and the replay of a market's collateral events.
 */
module MorphoPoints {
  import opened Arith
  import opened RateEpochs

  const DAY: int := 86_400
  const MATURITY_RAMP: int := 365 * DAY
  const WAD: int := 1_000_000_000_000_000_000
  const SHARE_UNIT: int := 1_000_000_000_000_000_000_000_000

  // Rates beyond one raw point per raw share and day do not occur: the ledger's cap is far below.
  const RATE_SCALE: int := DAY * SHARE_UNIT

  datatype PositionState = PositionState(balance: nat, accrued: nat, maturityStart: int, lastAccrual: int)

  const EMPTY_POSITION := PositionState(0, 0, 0, 0)

  // ===== The maturity ramp =====

  /** The integral from 0 to `x` of the multiplier 1 + min(t, RAMP) / RAMP, WAD-scaled. */
  function RampIntegral(x: nat): int {
    if x <= MATURITY_RAMP then x * WAD + x * x * WAD / (2 * MATURITY_RAMP)
    else 3 * MATURITY_RAMP * WAD / 2 + 2 * (x - MATURITY_RAMP) * WAD
  }

  lemma RampSquareStep(x: nat, y: nat)
    requires x <= y <= MATURITY_RAMP
    ensures 0 <= y * y * WAD / (2 * MATURITY_RAMP) - x * x * WAD / (2 * MATURITY_RAMP) <= (y - x) * WAD
  {
    var d := 2 * MATURITY_RAMP;
    MulMono2(x, y, x, y);
    DivMono(x * x * WAD, y * y * WAD, d);
    // y^2 - x^2 = (y - x)(y + x) <= (y - x) * d
    MulMono(y + x, d, y - x);
    assert (y + x) * (y - x) == y * y - x * x;
    DivMono(y * y * WAD, x * x * WAD + (y - x) * WAD * d, d);
    DivShift(x * x * WAD, (y - x) * WAD, d);
  }

  /** The ramp never pays less than 1x nor more than 2x over any stretch. */
  lemma RampSlope(x: nat, y: nat)
    requires x <= y
    ensures (y - x) * WAD <= RampIntegral(y) - RampIntegral(x) <= 2 * (y - x) * WAD
  {
    if y <= MATURITY_RAMP {
      RampSquareStep(x, y);
    } else if x <= MATURITY_RAMP {
      RampSquareStep(x, MATURITY_RAMP);
      assert RampIntegral(MATURITY_RAMP) == 3 * MATURITY_RAMP * WAD / 2;
    }
  }

  /** The multiplier at age `t`: 1x at first, rising linearly to 2x over the ramp. WAD-scaled. */
  function Multiplier(t: nat): int {
    WAD + Min(t, MATURITY_RAMP) * WAD / MATURITY_RAMP
  }

  /** Each second of age adds its multiplier: the ramp is the integral of the linear schedule. */
  lemma RampIntegratesMultiplier(x: nat)
    ensures Multiplier(x) <= RampIntegral(x + 1) - RampIntegral(x) <= Multiplier(x + 1) + 1
  {
    if x + 1 <= MATURITY_RAMP {
      var d := 2 * MATURITY_RAMP;
      var step := (2 * x + 1) * WAD;
      FloorSum(x * x * WAD, step, d);
      assert (x + 1) * (x + 1) * WAD == x * x * WAD + step;
      DivMono(2 * x * WAD, step, d);
      DivMono(step, 2 * (x + 1) * WAD, d);
      assert 2 * x * WAD / d == x * WAD / MATURITY_RAMP;
      assert 2 * (x + 1) * WAD / d == (x + 1) * WAD / MATURITY_RAMP;
    } else {
      RampLinear(x);
    }
  }

  // ===== Points of one epoch slice =====

  function Age(start: int, t: int): nat {
    if t >= start then t - start else 0
  }

  function RampBetween(start: int, a: int, b: int): int {
    RampIntegral(Age(start, b)) - RampIntegral(Age(start, a))
  }

  /** The two floors, in the order the ledger takes them. */
  function FlooredPoints(shareSeconds: int, rate: nat): int {
    shareSeconds / WAD * rate / RATE_SCALE
  }

  function EpochPoints(balance: nat, start: int, a: int, b: int, rate: nat): int {
    FlooredPoints(balance * RampBetween(start, a, b), rate)
  }

  lemma RampBetweenBounds(start: int, a: int, b: int)
    requires a <= b
    ensures 0 <= RampBetween(start, a, b) <= 2 * (b - a) * WAD
  {
    RampSlope(Age(start, a), Age(start, b));
  }

  lemma EpochPointsNonNegative(balance: nat, start: int, a: int, b: int, rate: nat)
    requires a <= b
    ensures 0 <= EpochPoints(balance, start, a, b, rate)
  {
    RampBetweenBounds(start, a, b);
    MulMono2(0, balance, 0, RampBetween(start, a, b));
    FloorLe(balance * RampBetween(start, a, b), WAD, 0);
    var v := balance * RampBetween(start, a, b) / WAD;
    MulMono2(0, v, 0, rate);
    FloorLe(v * rate, RATE_SCALE, 0);
  }

  /** Splitting one slice never gains and, at rates up to one raw point per share and day, loses at most 2. */
  lemma EpochPointsSplit(balance: nat, start: int, a: int, t: int, b: int, rate: nat)
    requires a <= t <= b
    ensures EpochPoints(balance, start, a, t, rate) + EpochPoints(balance, start, t, b, rate)
            <= EpochPoints(balance, start, a, b, rate)
    ensures rate <= RATE_SCALE ==>
              EpochPoints(balance, start, a, b, rate)
              <= EpochPoints(balance, start, a, t, rate) + EpochPoints(balance, start, t, b, rate) + 2
  {
    DoubleFloorSplit(balance * RampBetween(start, a, t), balance * RampBetween(start, t, b), rate);
    RampShareAdds(balance, start, a, t, b);
  }

  lemma Distribute(x: int, y: int, z: int)
    ensures x * (y + z) == x * y + x * z
  {
  }

  lemma RampShareAdds(balance: nat, start: int, a: int, t: int, b: int)
    ensures balance * RampBetween(start, a, b) == balance * RampBetween(start, a, t) + balance * RampBetween(start, t, b)
  {
    Distribute(balance, RampBetween(start, a, t), RampBetween(start, t, b));
  }

  lemma DoubleFloorSplit(u1: int, u2: int, rate: nat)
    ensures FlooredPoints(u1, rate) + FlooredPoints(u2, rate) <= FlooredPoints(u1 + u2, rate)
    ensures rate <= RATE_SCALE ==> FlooredPoints(u1 + u2, rate) <= FlooredPoints(u1, rate) + FlooredPoints(u2, rate) + 2
  {
    FloorSum(u1, u2, WAD);
    SecondFloorSplit(u1 / WAD, u2 / WAD, (u1 + u2) / WAD, rate);
  }

  lemma SecondFloorSplit(v1: int, v2: int, v: int, rate: nat)
    requires v1 + v2 <= v <= v1 + v2 + 1
    ensures v1 * rate / RATE_SCALE + v2 * rate / RATE_SCALE <= v * rate / RATE_SCALE
    ensures rate <= RATE_SCALE ==> v * rate / RATE_SCALE <= v1 * rate / RATE_SCALE + v2 * rate / RATE_SCALE + 2
  {
    FloorSum(v1 * rate, v2 * rate, RATE_SCALE);
    assert (v1 + v2) * rate == v1 * rate + v2 * rate;
    MulMono(v1 + v2, v, rate);
    DivMono((v1 + v2) * rate, v * rate, RATE_SCALE);
    if rate <= RATE_SCALE {
      MulMono(v, v1 + v2 + 1, rate);
      assert (v1 + v2 + 1) * rate == (v1 + v2) * rate + rate;
      DivMono(v * rate, (v1 + v2) * rate + 1 * RATE_SCALE, RATE_SCALE);
      DivShift((v1 + v2) * rate, 1, RATE_SCALE);
    }
  }

  // ===== Pending points =====

  function SlicePoints(balance: nat, start: int, epochs: seq<RateEpoch>, i: nat, from: int, to: int): (r: int)
    requires i < |epochs|
    ensures 0 <= r
  {
    var a, b := SliceStart(epochs, i, from), SliceEnd(epochs, i, to);
    if b > a then
      EpochPointsNonNegative(balance, start, a, b, epochs[i].rate);
      EpochPoints(balance, start, a, b, epochs[i].rate)
    else 0
  }

  /** Points of the first `n` epochs' slices of [from, to). */
  function PointsBetween(balance: nat, start: int, epochs: seq<RateEpoch>, n: nat, from: int, to: int): nat
    requires n <= |epochs|
  {
    if n == 0 then 0 else PointsBetween(balance, start, epochs, n - 1, from, to) + SlicePoints(balance, start, epochs, n - 1, from, to)
  }

  function PendingPoints(p: PositionState, epochs: seq<RateEpoch>, now: int): nat {
    if p.balance == 0 || p.lastAccrual == 0 || now <= p.lastAccrual then 0
    else PointsBetween(p.balance, p.maturityStart, epochs, |epochs|, p.lastAccrual, now)
  }

  /** The source's loop over the epochs. */
  method Pending(p: PositionState, epochs: seq<RateEpoch>, now: int) returns (total: nat)
    ensures total == PendingPoints(p, epochs, now)
  {
    total := 0;
    if p.balance == 0 || p.lastAccrual == 0 || now <= p.lastAccrual {
      return;
    }
    for i := 0 to |epochs|
      invariant total == PointsBetween(p.balance, p.maturityStart, epochs, i, p.lastAccrual, now)
    {
      var a := if epochs[i].start > p.lastAccrual then epochs[i].start else p.lastAccrual;
      var b := if i + 1 < |epochs| then epochs[i + 1].start else now;
      if b > now {
        b := now;
      }
      if b > a {
        EpochPointsNonNegative(p.balance, p.maturityStart, a, b, epochs[i].rate);
        total := total + EpochPoints(p.balance, p.maturityStart, a, b, epochs[i].rate);
      }
    }
  }

  function PointsAt(p: PositionState, epochs: seq<RateEpoch>, now: int): nat {
    p.accrued + PendingPoints(p, epochs, now)
  }

  predicate RatesBounded(epochs: seq<RateEpoch>) {
    forall i :: 0 <= i < |epochs| ==> epochs[i].rate <= RATE_SCALE
  }

  /**
   * Splitting an interval at `t` never gains and loses at most 2, whatever the epochs: only the
   * one epoch containing `t` strictly inside is cut, all others keep their slice whole.
   */
  lemma {:induction false} PointsBetweenSplit(balance: nat, start: int, epochs: seq<RateEpoch>, n: nat, from: int, t: int, to: int)
    requires Ordered(epochs) && n <= |epochs| && from <= t <= to
    ensures var whole := PointsBetween(balance, start, epochs, n, from, to);
            var parts := PointsBetween(balance, start, epochs, n, from, t) + PointsBetween(balance, start, epochs, n, t, to);
            && parts <= whole
            && (RatesBounded(epochs) ==> whole <= parts + 2)
            && (n < |epochs| && epochs[n].start <= t ==> parts == whole)
  {
    if n > 0 {
      PointsBetweenSplit(balance, start, epochs, n - 1, from, t, to);
      var a, b := SliceStart(epochs, n - 1, from), SliceEnd(epochs, n - 1, to);
      if a < t < b {
        EpochPointsSplit(balance, start, a, t, b, epochs[n - 1].rate);
      }
    }
  }

  /** Points never fall as time advances. */
  lemma PointsNeverFall(p: PositionState, epochs: seq<RateEpoch>, now: int, later: int)
    requires Ordered(epochs) && now <= later
    ensures PointsAt(p, epochs, now) <= PointsAt(p, epochs, later)
  {
    if p.lastAccrual <= now {
      PointsBetweenSplit(p.balance, p.maturityStart, epochs, |epochs|, p.lastAccrual, now, later);
    }
  }

  // ===== Checkpoints =====

  function Checkpointed(p: PositionState, epochs: seq<RateEpoch>, now: int): PositionState {
    p.(accrued := PointsAt(p, epochs, now), lastAccrual := now)
  }

  /** Supplying collateral: checkpoint, then blend the maturity start by amount. */
  function Tracked(p: PositionState, amount: nat, epochs: seq<RateEpoch>, now: int): PositionState {
    Checkpointed(p, epochs, now).(
    maturityStart := if p.balance == 0 then now
                     else (p.balance * p.maturityStart + amount * now) / (p.balance + amount),
    balance := p.balance + amount)
  }

  /** Removing collateral: checkpoint, then reduce the balance (clamped), keeping the start. */
  function Untracked(p: PositionState, amount: nat, epochs: seq<RateEpoch>, now: int): PositionState {
    Checkpointed(p, epochs, now).(balance := p.balance - Min(amount, p.balance))
  }

  /** One owner's position, as the replay updates it in place. */
  class Position {
    var balance: nat
    var accrued: nat
    var maturityStart: int
    var lastAccrual: int

    function State(): PositionState
      reads this
    {
      PositionState(balance, accrued, maturityStart, lastAccrual)
    }

    constructor ()
      ensures State() == EMPTY_POSITION
    {
      balance, accrued, maturityStart, lastAccrual := 0, 0, 0, 0;
    }

    method Accrue(epochs: seq<RateEpoch>, now: int)
      modifies this
      ensures State() == Checkpointed(old(State()), epochs, now)
    {
      var pending := Pending(State(), epochs, now);
      accrued := accrued + pending;
      lastAccrual := now;
    }

    method Track(amount: nat, epochs: seq<RateEpoch>, now: int)
      modifies this
      ensures State() == Tracked(old(State()), amount, epochs, now)
    {
      Accrue(epochs, now);
      maturityStart := if balance == 0 then now else (balance * maturityStart + amount * now) / (balance + amount);
      balance := balance + amount;
    }

    method Untrack(amount: nat, epochs: seq<RateEpoch>, now: int)
      modifies this
      ensures State() == Untracked(old(State()), amount, epochs, now)
    {
      Accrue(epochs, now);
      balance := balance - if amount < balance then amount else balance;
    }
  }

  lemma RampLinear(x: nat)
    requires x >= MATURITY_RAMP
    ensures RampIntegral(x) == 3 * MATURITY_RAMP * WAD / 2 + 2 * (x - MATURITY_RAMP) * WAD
    ensures Multiplier(x) == 2 * WAD
  {
  }
}
