/**
 * Rate schedules as both accrual engines read them: epoch `i` runs from its start to the next
 * epoch's start, the last one without end. The sliced sum both engines compute is shown to be
 * the second-by-second sum of the rate in force.
 */
module RateEpochs {
  import opened Arith

  datatype RateEpoch = RateEpoch(start: int, rate: nat)

  predicate Ordered(epochs: seq<RateEpoch>) {
    forall i :: 1 <= i < |epochs| ==> epochs[i - 1].start <= epochs[i].start
  }

  function SliceStart(epochs: seq<RateEpoch>, i: nat, from: int): int
    requires i < |epochs|
  {
    Max(epochs[i].start, from)
  }

  function SliceEnd(epochs: seq<RateEpoch>, i: nat, to: int): int
    requires i < |epochs|
  {
    if i + 1 < |epochs| then Min(epochs[i + 1].start, to) else to
  }

  function SliceLength(epochs: seq<RateEpoch>, i: nat, from: int, to: int): nat
    requires i < |epochs|
  {
    Max(SliceEnd(epochs, i, to) - SliceStart(epochs, i, from), 0)
  }

  /** Rate times length over the first `n` epochs' slices of [from, to). */
  function SliceSum(epochs: seq<RateEpoch>, n: nat, from: int, to: int): nat
    requires n <= |epochs|
  {
    if n == 0 then 0
    else SliceSum(epochs, n - 1, from, to) + epochs[n - 1].rate * SliceLength(epochs, n - 1, from, to)
  }

  /** The rate of the last of the first `n` epochs started by `t`, or 0 before any. */
  function RateAmong(epochs: seq<RateEpoch>, n: nat, t: int): nat
    requires n <= |epochs|
  {
    if n == 0 then 0
    else if epochs[n - 1].start <= t then epochs[n - 1].rate
    else RateAmong(epochs, n - 1, t)
  }

  function RateAt(epochs: seq<RateEpoch>, t: int): nat {
    RateAmong(epochs, |epochs|, t)
  }

  /** The rate in force summed over every second of [from, to). */
  function SecondSum(epochs: seq<RateEpoch>, from: int, to: int): nat
    decreases Max(to - from, 0)
  {
    if to <= from then 0 else SecondSum(epochs, from, to - 1) + RateAt(epochs, to - 1)
  }

  lemma OrderedStarts(epochs: seq<RateEpoch>, i: nat, j: nat)
    requires Ordered(epochs) && i <= j < |epochs|
    ensures epochs[i].start <= epochs[j].start
    decreases j - i
  {
    if i < j {
      OrderedStarts(epochs, i, j - 1);
    }
  }

  /** One more second adds the rate in force at that second, once all epochs are counted. */
  lemma {:induction false} OneMoreSecond(epochs: seq<RateEpoch>, n: nat, from: int, t: int)
    requires Ordered(epochs) && n <= |epochs| && from <= t
    ensures SliceSum(epochs, n, from, t + 1) - SliceSum(epochs, n, from, t)
            == if n < |epochs| && epochs[n].start <= t then 0 else RateAmong(epochs, n, t)
  {
    if n > 0 {
      OneMoreSecond(epochs, n - 1, from, t);
      var grown, before := SliceLength(epochs, n - 1, from, t + 1), SliceLength(epochs, n - 1, from, t);
      var active := epochs[n - 1].start <= t && (n < |epochs| ==> t < epochs[n].start);
      assert grown == before + if active then 1 else 0;
      assert epochs[n - 1].rate * grown == epochs[n - 1].rate * before + if active then epochs[n - 1].rate else 0;
    }
  }

  lemma {:induction false} EmptyInterval(epochs: seq<RateEpoch>, n: nat, from: int, to: int)
    requires Ordered(epochs) && n <= |epochs| && to <= from
    ensures SliceSum(epochs, n, from, to) == 0
  {
    if n > 0 {
      EmptyInterval(epochs, n - 1, from, to);
    }
  }

  /** The epoch-sliced sum is the second-by-second sum of the rate in force. */
  lemma {:induction false} SlicesAreSeconds(epochs: seq<RateEpoch>, from: int, to: int)
    requires Ordered(epochs)
    ensures SliceSum(epochs, |epochs|, from, to) == SecondSum(epochs, from, to)
    decreases Max(to - from, 0)
  {
    if to <= from {
      EmptyInterval(epochs, |epochs|, from, to);
    } else {
      SlicesAreSeconds(epochs, from, to - 1);
      OneMoreSecond(epochs, |epochs|, from, to - 1);
    }
  }

  lemma {:induction false} SecondSumSplits(epochs: seq<RateEpoch>, from: int, mid: int, to: int)
    requires from <= mid <= to
    ensures SecondSum(epochs, from, to) == SecondSum(epochs, from, mid) + SecondSum(epochs, mid, to)
    decreases Max(to - mid, 0)
  {
    if mid < to {
      SecondSumSplits(epochs, from, mid, to - 1);
    }
  }

  /** The rate in force is that of the one epoch the second lies in. */
  lemma RateInForce(epochs: seq<RateEpoch>, i: nat, t: int)
    requires Ordered(epochs) && i < |epochs|
    requires epochs[i].start <= t && (i + 1 < |epochs| ==> t < epochs[i + 1].start)
    ensures RateAt(epochs, t) == epochs[i].rate
  {
    RateAmongFrom(epochs, |epochs|, i, t);
  }

  lemma {:induction false} RateAmongFrom(epochs: seq<RateEpoch>, n: nat, i: nat, t: int)
    requires Ordered(epochs) && i < n <= |epochs|
    requires epochs[i].start <= t && (i + 1 < |epochs| ==> t < epochs[i + 1].start)
    ensures RateAmong(epochs, n, t) == epochs[i].rate
    decreases n
  {
    if i + 1 < n {
      OrderedStarts(epochs, i + 1, n - 1);
      RateAmongFrom(epochs, n - 1, i, t);
    }
  }

  /** Before the first epoch there is no rate. */
  lemma {:induction false} NoRateBefore(epochs: seq<RateEpoch>, n: nat, t: int)
    requires n <= |epochs| && forall i :: 0 <= i < n ==> t < epochs[i].start
    ensures RateAmong(epochs, n, t) == 0
  {
    if n > 0 {
      NoRateBefore(epochs, n - 1, t);
    }
  }
}
