/**
 * The replay of a market's collateral events into each owner's collateral and points.
 *
 * An owner's result is specified without the replay: its collateral is the net of its own events
 * and its points are those of the schedule its own events make.
 */
module CollateralReplay {
  import opened Arith
  import opened RateEpochs
  import opened MorphoPoints
  import opened PointsSchedules
  import opened Sums
  import opened Wrappers

  // Addresses, already lower-cased.
  type Owner = nat

  datatype EventKind = SupplyEvent | WithdrawEvent | LiquidateEvent

  datatype CollateralEvent = CollateralEvent(
    blockNumber: int, logIndex: int, timestamp: int, kind: EventKind, owner: Owner, assets: int)

  datatype ReplayError = NoEpochs | EpochsOutOfOrder | EventsOutOfOrder | EventAfterAsOf | NegativeAmount | RemovedUnseen

  datatype OwnerPoints = OwnerPoints(owner: Owner, collateral: int, points: int)

  // ===== What the events alone say =====

  function Delta(e: CollateralEvent): int {
    if e.kind == SupplyEvent then e.assets else -e.assets
  }

  function OwnersOf(events: seq<CollateralEvent>): set<Owner> {
    set e | e in events :: e.owner
  }

  /** What the events leave an owner holding. */
  function Net(events: seq<CollateralEvent>, o: Owner): int {
    if |events| == 0 then 0
    else Net(events[..|events| - 1], o) + if events[|events| - 1].owner == o then Delta(events[|events| - 1]) else 0
  }

  function OwnEvents(events: seq<CollateralEvent>, o: Owner): seq<CollateralEvent> {
    if |events| == 0 then []
    else OwnEvents(events[..|events| - 1], o) + if events[|events| - 1].owner == o then [events[|events| - 1]] else []
  }

  function StepOf(e: CollateralEvent): Step
    requires e.assets >= 0
  {
    if e.kind == SupplyEvent then Supply(e.assets, e.timestamp) else Remove(e.assets, e.timestamp)
  }

  predicate NoneNegative(events: seq<CollateralEvent>) {
    forall i :: 0 <= i < |events| ==> events[i].assets >= 0
  }

  /** The schedule an owner's own events make; a zero amount changes nothing. */
  function OwnerSteps(events: seq<CollateralEvent>, o: Owner): seq<Step>
    requires NoneNegative(events)
  {
    if |events| == 0 then []
    else
      var last := events[|events| - 1];
      OwnerSteps(events[..|events| - 1], o) + if last.owner == o && last.assets > 0 then [StepOf(last)] else []
  }

  function PositionOf(events: seq<CollateralEvent>, epochs: seq<RateEpoch>, o: Owner): PositionState
    requires NoneNegative(events)
  {
    Run(EMPTY_POSITION, epochs, OwnerSteps(events, o))
  }

  function ReplayedPoints(events: seq<CollateralEvent>, epochs: seq<RateEpoch>, asOf: int): map<Owner, OwnerPoints>
    requires NoneNegative(events)
  {
    map o | o in OwnersOf(events) :: OwnerPoints(o, Net(events, o), PointsAt(PositionOf(events, epochs, o), epochs, asOf))
  }

  // ===== Which histories are refused =====

  predicate Follows(previous: CollateralEvent, event: CollateralEvent) {
    && (previous.blockNumber < event.blockNumber
        || (previous.blockNumber == event.blockNumber && previous.logIndex < event.logIndex))
    && previous.timestamp <= event.timestamp
  }

  /** The reason event `n` is refused after the events before it, if it is. */
  function Fault(events: seq<CollateralEvent>, n: nat, asOf: int): Result<(), ReplayError>
    requires n < |events|
  {
    if n > 0 && !Follows(events[n - 1], events[n]) then Err(EventsOutOfOrder)
    else if events[n].timestamp > asOf then Err(EventAfterAsOf)
    else if events[n].assets < 0 then Err(NegativeAmount)
    else if events[n].kind != SupplyEvent && events[n].assets > Net(events[..n], events[n].owner) then Err(RemovedUnseen)
    else Ok(())
  }

  predicate WellFormed(events: seq<CollateralEvent>, asOf: int) {
    forall n :: 0 <= n < |events| ==> Fault(events, n, asOf).Ok?
  }

  lemma WellFormedPrefix(events: seq<CollateralEvent>, asOf: int, m: nat)
    requires WellFormed(events, asOf) && m <= |events|
    ensures WellFormed(events[..m], asOf) && NoneNegative(events)
  {
    forall n | 0 <= n < m
      ensures Fault(events[..m], n, asOf).Ok?
    {
      assert Fault(events, n, asOf).Ok?;
      assert events[..m][..n] == events[..n];
    }
    forall n | 0 <= n < |events|
      ensures events[n].assets >= 0
    {
      assert Fault(events, n, asOf).Ok?;
    }
  }

  lemma {:induction false} RunSnoc(p: PositionState, epochs: seq<RateEpoch>, steps: seq<Step>, step: Step)
    ensures Run(p, epochs, steps + [step]) == Apply(Run(p, epochs, steps), epochs, step)
    decreases |steps|
  {
    if |steps| == 0 {
      assert ([] + [step])[1..] == [];
    } else {
      RunSnoc(Apply(p, epochs, steps[0]), epochs, steps[1..], step);
      assert (steps + [step])[1..] == steps[1..] + [step];
    }
  }

  lemma OneMoreEvent(events: seq<CollateralEvent>, n: nat, epochs: seq<RateEpoch>, o: Owner)
    requires n < |events| && NoneNegative(events[..n]) && events[n].assets >= 0
    ensures NoneNegative(events[..n + 1])
    ensures OwnersOf(events[..n + 1]) == OwnersOf(events[..n]) + {events[n].owner}
    ensures events[n].owner != o || events[n].assets == 0 ==>
              PositionOf(events[..n + 1], epochs, o) == PositionOf(events[..n], epochs, o)
    ensures events[n].owner == o && events[n].assets > 0 ==>
              PositionOf(events[..n + 1], epochs, o) == Apply(PositionOf(events[..n], epochs, o), epochs, StepOf(events[n]))
  {
    assert events[..n + 1][..n] == events[..n];
    assert events[..n + 1] == events[..n] + [events[n]];
    RunSnoc(EMPTY_POSITION, epochs, OwnerSteps(events[..n], o), StepOf(events[n]));
    assert OwnerSteps(events[..n], o) + [] == OwnerSteps(events[..n], o);
  }

  /** The replayed balance is the net of the owner's events: the clamp of a removal is never reached. */
  lemma {:induction false} BalanceIsNet(events: seq<CollateralEvent>, epochs: seq<RateEpoch>, asOf: int, o: Owner)
    requires WellFormed(events, asOf)
    ensures NoneNegative(events)
    ensures PositionOf(events, epochs, o).balance == Net(events, o)
    ensures o !in OwnersOf(events) ==> PositionOf(events, epochs, o) == EMPTY_POSITION
    decreases |events|
  {
    WellFormedPrefix(events, asOf, |events|);
    if |events| > 0 {
      var n := |events| - 1;
      WellFormedPrefix(events, asOf, n);
      BalanceIsNet(events[..n], epochs, asOf, o);
      assert Fault(events, n, asOf).Ok?;
      assert events[..n + 1] == events;
      OneMoreEvent(events, n, epochs, o);
    }
  }

  // ===== The replay itself =====

  method ValidateEpochs(epochs: seq<RateEpoch>) returns (error: Result<(), ReplayError>)
    ensures error.Ok? <==> |epochs| > 0 && Ordered(epochs)
    ensures error.Err? ==> error.error == if |epochs| == 0 then NoEpochs else EpochsOutOfOrder
  {
    if |epochs| == 0 {
      return Err(NoEpochs);
    }
    for i := 1 to |epochs|
      invariant forall j :: 1 <= j < i ==> epochs[j - 1].start <= epochs[j].start
    {
      if epochs[i].start < epochs[i - 1].start {
        return Err(EpochsOutOfOrder);
      }
    }
    return Ok(());
  }

  /** The positions the events leave, by value. */
  function StatesOf(events: seq<CollateralEvent>, epochs: seq<RateEpoch>): map<Owner, PositionState>
    requires NoneNegative(events)
  {
    map o | o in OwnersOf(events) :: PositionOf(events, epochs, o)
  }

  function StateBefore(states: map<Owner, PositionState>, o: Owner): PositionState {
    if o in states then states[o] else EMPTY_POSITION
  }

  function StateAfter(before: PositionState, event: CollateralEvent, epochs: seq<RateEpoch>): PositionState
    requires event.assets >= 0
  {
    if event.assets == 0 then before else Apply(before, epochs, StepOf(event))
  }

  /** The state one more event leaves any one owner in. */
  lemma StateSnoc(events: seq<CollateralEvent>, n: nat, epochs: seq<RateEpoch>, o: Owner)
    requires n < |events| && NoneNegative(events[..n]) && events[n].assets >= 0
    ensures NoneNegative(events[..n + 1])
    ensures PositionOf(events[..n + 1], epochs, o)
            == if o == events[n].owner then StateAfter(PositionOf(events[..n], epochs, o), events[n], epochs)
               else PositionOf(events[..n], epochs, o)
  {
    OneMoreEvent(events, n, epochs, o);
  }

  lemma BeforeIsPosition(events: seq<CollateralEvent>, epochs: seq<RateEpoch>, asOf: int, o: Owner)
    requires WellFormed(events, asOf) && NoneNegative(events)
    ensures StateBefore(StatesOf(events, epochs), o) == PositionOf(events, epochs, o)
    ensures PositionOf(events, epochs, o).balance == Net(events, o)
  {
    BalanceIsNet(events, epochs, asOf, o);
  }

  /** One more event changes its owner's state alone, and its removal is covered exactly when the event is not refused. */
  lemma StatesSnoc(events: seq<CollateralEvent>, n: nat, epochs: seq<RateEpoch>, asOf: int)
    requires n < |events| && WellFormed(events[..n], asOf) && NoneNegative(events[..n]) && events[n].assets >= 0
    ensures NoneNegative(events[..n + 1])
    ensures var before := StateBefore(StatesOf(events[..n], epochs), events[n].owner);
            && before.balance == Net(events[..n], events[n].owner)
            && StatesOf(events[..n + 1], epochs)
               == StatesOf(events[..n], epochs)[events[n].owner := StateAfter(before, events[n], epochs)]
  {
    var owner := events[n].owner;
    BeforeIsPosition(events[..n], epochs, asOf, owner);
    StateSnoc(events, n, epochs, owner);
    OneMoreEvent(events, n, epochs, owner);
    forall o | o in OwnersOf(events[..n]) && o != owner
      ensures PositionOf(events[..n + 1], epochs, o) == PositionOf(events[..n], epochs, o)
    {
      StateSnoc(events, n, epochs, o);
    }
  }

  /** The objects hold the given states, one distinct object per owner. */
  ghost predicate Holds(positions: map<Owner, Position>, states: map<Owner, PositionState>)
    reads positions.Values
  {
    && positions.Keys == states.Keys
    && (forall o, o' :: o in positions && o' in positions && o != o' ==> positions[o] != positions[o'])
    && forall o :: o in positions ==> positions[o].State() == states[o]
  }

  /** Applies one event to its owner's position, or reports a removal of more than it holds. */
  method ApplyEvent(positions: map<Owner, Position>, event: CollateralEvent, epochs: seq<RateEpoch>,
                    ghost states: map<Owner, PositionState>)
    returns (grown: map<Owner, Position>, covered: bool)
    requires event.assets >= 0 && Holds(positions, states)
    modifies positions.Values
    ensures var before := StateBefore(states, event.owner);
            && covered == (event.kind == SupplyEvent || event.assets <= before.balance)
            && (covered ==> Holds(grown, states[event.owner := StateAfter(before, event, epochs)]))
    ensures forall o :: o in grown ==> (o in positions && grown[o] == positions[o]) || fresh(grown[o])
  {
    grown := positions;
    if event.owner !in grown {
      var entry := new Position();
      grown := grown[event.owner := entry];
    }
    var p := grown[event.owner];
    covered := true;
    if event.assets != 0 {
      if event.kind == SupplyEvent {
        p.Track(event.assets, epochs, event.timestamp);
      } else if event.assets > p.balance {
        covered := false;
      } else {
        p.Untrack(event.assets, epochs, event.timestamp);
      }
    }
  }

  /** The checks made before an event reaches its owner's position. */
  method Refused(events: seq<CollateralEvent>, n: nat, asOf: int) returns (refused: Option<ReplayError>)
    requires n < |events|
    ensures refused.Some? ==> Fault(events, n, asOf) == Err(refused.value)
    ensures refused.None? ==> events[n].assets >= 0 && Fault(events, n, asOf) in [Ok(()), Err(RemovedUnseen)]
  {
    var event := events[n];
    if n > 0 && (event.blockNumber < events[n - 1].blockNumber
                 || (event.blockNumber == events[n - 1].blockNumber && event.logIndex <= events[n - 1].logIndex)
                 || event.timestamp < events[n - 1].timestamp) {
      return Some(EventsOutOfOrder);
    }
    if event.timestamp > asOf {
      return Some(EventAfterAsOf);
    }
    if event.assets < 0 {
      return Some(NegativeAmount);
    }
    return None;
  }

  /** One turn of the replay's loop. */
  method ReplayEvent(positions: map<Owner, Position>, events: seq<CollateralEvent>, n: nat, epochs: seq<RateEpoch>, asOf: int)
    returns (grown: map<Owner, Position>, refused: Option<ReplayError>)
    requires n < |events| && WellFormed(events[..n], asOf) && NoneNegative(events[..n])
    requires Holds(positions, StatesOf(events[..n], epochs))
    modifies positions.Values
    ensures refused.Some? ==> Fault(events, n, asOf) == Err(refused.value)
    ensures refused.None? ==> WellFormed(events[..n + 1], asOf) && NoneNegative(events[..n + 1])
                              && Holds(grown, StatesOf(events[..n + 1], epochs))
    ensures forall o :: o in grown ==> (o in positions && grown[o] == positions[o]) || fresh(grown[o])
  {
    grown := positions;
    refused := Refused(events, n, asOf);
    if refused.Some? {
      return;
    }
    StatesSnoc(events, n, epochs, asOf);
    var covered;
    grown, covered := ApplyEvent(positions, events[n], epochs, StatesOf(events[..n], epochs));
    if covered {
      WellFormedSnoc(events, n, asOf);
    } else {
      refused := Some(RemovedUnseen);
    }
  }

  method ReplayCollateralPoints(events: seq<CollateralEvent>, epochs: seq<RateEpoch>, asOf: int)
    returns (r: Result<map<Owner, OwnerPoints>, ReplayError>)
    ensures r.Ok? <==> |epochs| > 0 && Ordered(epochs) && WellFormed(events, asOf)
    ensures r.Ok? ==> NoneNegative(events) && r.value == ReplayedPoints(events, epochs, asOf)
    ensures |epochs| == 0 ==> r == Err(NoEpochs)
    ensures |epochs| > 0 && !Ordered(epochs) ==> r == Err(EpochsOutOfOrder)
    ensures r.Err? && |epochs| > 0 && Ordered(epochs) ==>
              exists n :: 0 <= n < |events| && WellFormed(events[..n], asOf) && Fault(events, n, asOf) == Err(r.error)
  {
    var valid := ValidateEpochs(epochs);
    if valid.Err? {
      return Err(valid.error);
    }
    var positions: map<Owner, Position> := map[];
    for n := 0 to |events|
      invariant WellFormed(events[..n], asOf) && NoneNegative(events[..n])
      invariant forall o :: o in positions ==> fresh(positions[o])
      invariant Holds(positions, StatesOf(events[..n], epochs))
    {
      var refused;
      positions, refused := ReplayEvent(positions, events, n, epochs, asOf);
      if refused.Some? {
        RefusedHere(events, n, asOf);
        return Err(refused.value);
      }
    }
    assert events[..|events|] == events;
    var out := CollectPoints(positions, epochs, asOf, StatesOf(events, epochs));
    PointsOfStates(events, epochs, asOf);
    return Ok(out);
  }

  lemma RefusedHere(events: seq<CollateralEvent>, n: nat, asOf: int)
    requires n < |events| && Fault(events, n, asOf).Err?
    ensures !WellFormed(events, asOf)
  {
  }

  /** Each owner's live collateral and points, by value. */
  function PointsOf(states: map<Owner, PositionState>, epochs: seq<RateEpoch>, asOf: int): map<Owner, OwnerPoints> {
    map o | o in states :: OwnerPoints(o, states[o].balance, PointsAt(states[o], epochs, asOf))
  }

  lemma PointsOfStates(events: seq<CollateralEvent>, epochs: seq<RateEpoch>, asOf: int)
    requires WellFormed(events, asOf) && NoneNegative(events)
    ensures PointsOf(StatesOf(events, epochs), epochs, asOf) == ReplayedPoints(events, epochs, asOf)
  {
    forall o | o in OwnersOf(events)
      ensures PositionOf(events, epochs, o).balance == Net(events, o)
    {
      BalanceIsNet(events, epochs, asOf, o);
    }
  }

  method CollectPoints(positions: map<Owner, Position>, epochs: seq<RateEpoch>, asOf: int, ghost states: map<Owner, PositionState>)
    returns (out: map<Owner, OwnerPoints>)
    requires Holds(positions, states)
    ensures out == PointsOf(states, epochs, asOf)
  {
    out := map[];
    var left := positions.Keys;
    while left != {}
      invariant left <= positions.Keys && out.Keys == positions.Keys - left
      invariant forall o :: o in out ==> out[o] == PointsOf(states, epochs, asOf)[o]
    {
      var o :| o in left;
      var p := positions[o];
      var pending := Pending(p.State(), epochs, asOf);
      out := out[o := OwnerPoints(o, p.balance, p.accrued + pending)];
      left := left - {o};
    }
  }

  lemma WellFormedSnoc(events: seq<CollateralEvent>, n: nat, asOf: int)
    requires n < |events| && WellFormed(events[..n], asOf) && Fault(events, n, asOf).Ok?
    ensures WellFormed(events[..n + 1], asOf)
  {
    var longer := events[..n + 1];
    forall m | 0 <= m < |longer|
      ensures Fault(longer, m, asOf).Ok?
    {
      assert longer[..m] == events[..m];
      if m < n {
        assert Fault(events[..n], m, asOf).Ok?;
        assert events[..n][..m] == events[..m];
      }
    }
  }

  // ===== What the replay guarantees =====

  lemma {:induction false} FollowsLater(events: seq<CollateralEvent>, asOf: int, i: nat, j: nat)
    requires WellFormed(events, asOf) && i < j < |events|
    ensures Follows(events[i], events[j])
    decreases j - i
  {
    assert Fault(events, j, asOf).Ok?;
    if i + 1 < j {
      FollowsLater(events, asOf, i, j - 1);
    }
  }

  lemma {:induction false} OwnEventsMembers(events: seq<CollateralEvent>, o: Owner)
    ensures forall e :: e in OwnEvents(events, o) <==> e in events && e.owner == o
    decreases |events|
  {
    if |events| > 0 {
      OwnEventsMembers(events[..|events| - 1], o);
      assert events == events[..|events| - 1] + [events[|events| - 1]];
    }
  }

  lemma OwnNoneNegative(events: seq<CollateralEvent>, o: Owner)
    requires NoneNegative(events)
    ensures NoneNegative(OwnEvents(events, o))
  {
  }

  lemma {:induction false} OwnEventsSameNet(events: seq<CollateralEvent>, o: Owner)
    ensures Net(OwnEvents(events, o), o) == Net(events, o)
    decreases |events|
  {
    if |events| > 0 {
      var before, e := OwnEvents(events[..|events| - 1], o), events[|events| - 1];
      OwnEventsSameNet(events[..|events| - 1], o);
      if e.owner == o {
        assert (before + [e])[..|before|] == before;
      } else {
        assert before + [] == before;
      }
    }
  }

  lemma {:induction false} OwnEventsSameSteps(events: seq<CollateralEvent>, o: Owner)
    requires NoneNegative(events) && NoneNegative(OwnEvents(events, o))
    ensures OwnerSteps(OwnEvents(events, o), o) == OwnerSteps(events, o)
    decreases |events|
  {
    if |events| > 0 {
      var front, e := events[..|events| - 1], events[|events| - 1];
      var before := OwnEvents(front, o);
      OwnNoneNegative(front, o);
      OwnEventsSameSteps(front, o);
      if e.owner == o {
        OneMoreOwn(before, e);
      } else {
        assert before + [] == before && OwnerSteps(front, o) + [] == OwnerSteps(front, o);
      }
    }
  }

  /** Dropping other owners' events leaves the owner's net and schedule as they were. */
  lemma OwnEventsSameStream(events: seq<CollateralEvent>, o: Owner)
    requires NoneNegative(events)
    ensures NoneNegative(OwnEvents(events, o))
    ensures Net(OwnEvents(events, o), o) == Net(events, o)
    ensures OwnerSteps(OwnEvents(events, o), o) == OwnerSteps(events, o)
  {
    OwnNoneNegative(events, o);
    OwnEventsSameNet(events, o);
    OwnEventsSameSteps(events, o);
  }

  lemma OneMoreOwn(own: seq<CollateralEvent>, e: CollateralEvent)
    requires NoneNegative(own) && e.assets >= 0
    ensures OwnerSteps(own + [e], e.owner) == OwnerSteps(own, e.owner) + if e.assets > 0 then [StepOf(e)] else []
  {
  }

  /** An owner's own events are a history the replay accepts. */
  lemma {:induction false} OwnEventsWellFormed(events: seq<CollateralEvent>, asOf: int, o: Owner)
    requires WellFormed(events, asOf)
    ensures WellFormed(OwnEvents(events, o), asOf)
    decreases |events|
  {
    if |events| > 0 {
      var n := |events| - 1;
      WellFormedPrefix(events, asOf, n);
      OwnEventsWellFormed(events[..n], asOf, o);
      var before, own := OwnEvents(events[..n], o), OwnEvents(events, o);
      if events[n].owner == o {
        assert own[..|before|] == before;
        OwnEventsSameStream(events[..n], o);
        OwnEventFollows(events, asOf, o, n);
        assert Fault(events, n, asOf).Ok?;
        WellFormedSnoc(own, |before|, asOf);
        assert own[..|before| + 1] == own;
      } else {
        assert own == before;
      }
    }
  }

  lemma OwnEventFollows(events: seq<CollateralEvent>, asOf: int, o: Owner, n: nat)
    requires WellFormed(events, asOf) && n < |events|
    ensures var before := OwnEvents(events[..n], o);
            |before| > 0 ==> Follows(before[|before| - 1], events[n])
  {
    var before := OwnEvents(events[..n], o);
    if |before| > 0 {
      OwnEventsMembers(events[..n], o);
      assert before[|before| - 1] in events[..n];
      var i :| 0 <= i < n && events[i] == before[|before| - 1];
      FollowsLater(events, asOf, i, n);
    }
  }

  /** Owners are independent: replaying only an owner's own events gives it the same result, and nobody else. */
  lemma OwnerIndependence(events: seq<CollateralEvent>, epochs: seq<RateEpoch>, asOf: int, o: Owner)
    requires WellFormed(events, asOf) && o in OwnersOf(events)
    ensures NoneNegative(events)
    ensures var own := OwnEvents(events, o);
            && WellFormed(own, asOf) && NoneNegative(own)
            && ReplayedPoints(own, epochs, asOf) == map[o := ReplayedPoints(events, epochs, asOf)[o]]
  {
    WellFormedPrefix(events, asOf, |events|);
    OwnEventsWellFormed(events, asOf, o);
    OwnEventsSameStream(events, o);
    OwnEventsMembers(events, o);
    var own := OwnEvents(events, o);
    var e :| e in events && e.owner == o;
    assert e in own;
    assert OwnersOf(own) == {o};
    assert PositionOf(own, epochs, o) == PositionOf(events, epochs, o);
  }

  function TotalDelta(events: seq<CollateralEvent>): int {
    if |events| == 0 then 0 else TotalDelta(events[..|events| - 1]) + Delta(events[|events| - 1])
  }

  ghost function Nets(events: seq<CollateralEvent>): map<Owner, int> {
    map o | o in OwnersOf(events) :: Net(events, o)
  }

  lemma {:induction false} NetOfStranger(events: seq<CollateralEvent>, o: Owner)
    requires o !in OwnersOf(events)
    ensures Net(events, o) == 0
    decreases |events|
  {
    if |events| > 0 {
      assert events[|events| - 1] in events;
      assert o !in OwnersOf(events[..|events| - 1]);
      NetOfStranger(events[..|events| - 1], o);
    }
  }

  /** Conservation: the owners' collateral adds up to everything supplied less everything removed. */
  lemma {:induction false} CollateralConserved(events: seq<CollateralEvent>)
    ensures SumMap(Nets(events)) == TotalDelta(events)
    decreases |events|
  {
    if |events| > 0 {
      var n := |events| - 1;
      var before, e := events[..n], events[n];
      CollateralConserved(before);
      assert events == before + [e];
      assert OwnersOf(events) == OwnersOf(before) + {e.owner};
      if e.owner !in OwnersOf(before) {
        NetOfStranger(before, e.owner);
      }
      assert Nets(events) == Nets(before)[e.owner := Net(events, e.owner)];
      SumMapUpdate(Nets(before), e.owner, Net(events, e.owner));
    }
  }

  lemma {:induction false} TimeOrderedSnoc(steps: seq<Step>, from: int, last: int, step: Step, asOf: int)
    requires TimeOrdered(steps, from, last) && last <= step.at <= asOf
    ensures TimeOrdered(steps + [step], from, asOf)
    decreases |steps|
  {
    if |steps| > 0 {
      TimeOrderedSnoc(steps[1..], steps[0].at, last, step, asOf);
      assert (steps + [step])[1..] == steps[1..] + [step];
    } else {
      assert ([step])[1..] == [];
    }
  }

  lemma {:induction false} TimeOrderedLater(steps: seq<Step>, from: int, last: int, asOf: int)
    requires TimeOrdered(steps, from, last) && last <= asOf
    ensures TimeOrdered(steps, from, asOf)
    decreases |steps|
  {
    if |steps| > 0 {
      TimeOrderedLater(steps[1..], steps[0].at, last, asOf);
    }
  }

  /** An owner's schedule is in time order, from the earliest event time to the latest. */
  lemma {:induction false} OwnerStepsOrdered(events: seq<CollateralEvent>, asOf: int, o: Owner, from: int)
    requires WellFormed(events, asOf) && from <= asOf
    requires forall e :: e in events ==> from <= e.timestamp
    ensures NoneNegative(events)
    ensures TimeOrdered(OwnerSteps(events, o), from, if |events| == 0 then from else events[|events| - 1].timestamp)
    ensures TimeOrdered(OwnerSteps(events, o), from, asOf)
    decreases |events|
  {
    WellFormedPrefix(events, asOf, |events|);
    if |events| > 0 {
      var n := |events| - 1;
      WellFormedPrefix(events, asOf, n);
      OwnerStepsOrdered(events[..n], asOf, o, from);
      assert Fault(events, n, asOf).Ok?;
      assert events[n] in events;
      var steps := OwnerSteps(events[..n], o);
      var last := if n == 0 then from else events[n - 1].timestamp;
      if events[n].owner == o && events[n].assets > 0 {
        TimeOrderedSnoc(steps, from, last, StepOf(events[n]), events[n].timestamp);
      } else {
        assert steps + [] == steps;
        TimeOrderedLater(steps, from, last, events[n].timestamp);
      }
      TimeOrderedLater(OwnerSteps(events, o), from, events[n].timestamp, asOf);
    }
  }

  /**
   * Whatever the replay accepts, no owner's points exceed twice the base integral of its own schedule;
   * with event times from 0 on no maturity start exceeds the last accrual, and from 1 on the points
   * fall short of the integral only by the floors.
   */
  lemma ReplayedWithinBase(events: seq<CollateralEvent>, epochs: seq<RateEpoch>, asOf: int, o: Owner)
    requires WellFormed(events, asOf) && Ordered(epochs) && o in OwnersOf(events)
    ensures NoneNegative(events)
    ensures var points, base := ReplayedPoints(events, epochs, asOf)[o].points,
                                BaseIntegral(EMPTY_POSITION, epochs, OwnerSteps(events, o), asOf);
            && points * RATE_SCALE <= 2 * base
            && (RatesBounded(epochs) && NoneBefore(events, 1) ==>
                  base <= (points + 2 * |epochs| * (|OwnerSteps(events, o)| + 1)) * RATE_SCALE)
    ensures NoneBefore(events, 0) ==> StartWithinStamp(PositionOf(events, epochs, o))
  {
    WellFormedPrefix(events, asOf, |events|);
    var steps := OwnerSteps(events, o);
    PointsWithinBase(epochs, steps, asOf);
    LastByAsOf(events, asOf, o);
    if NoneBefore(events, 1) {
      OwnerStepsOrdered(events, asOf, o, 1);
    }
    if NoneBefore(events, 0) {
      OwnerStepsOrdered(events, asOf, o, 0);
      StartNeverExceedsStamp(EMPTY_POSITION, epochs, steps, asOf);
    }
  }

  predicate NoneBefore(events: seq<CollateralEvent>, t: int) {
    forall e :: e in events ==> t <= e.timestamp
  }

  /** An owner that appears did so no later than `asOf`. */
  lemma LastByAsOf(events: seq<CollateralEvent>, asOf: int, o: Owner)
    requires WellFormed(events, asOf) && o in OwnersOf(events)
    ensures forall t :: NoneBefore(events, t) ==> t <= asOf
  {
    var e :| e in events && e.owner == o;
    var n :| 0 <= n < |events| && events[n] == e;
    assert Fault(events, n, asOf).Ok?;
  }

  /** Forward-only rates: an epoch appended at or after `asOf` changes no owner's result. */
  lemma ReplayIgnoresLaterEpoch(events: seq<CollateralEvent>, epochs: seq<RateEpoch>, asOf: int, e: RateEpoch)
    requires WellFormed(events, asOf) && asOf <= e.start
    ensures NoneNegative(events)
    ensures ReplayedPoints(events, epochs + [e], asOf) == ReplayedPoints(events, epochs, asOf)
  {
    WellFormedPrefix(events, asOf, |events|);
    var first := if |events| == 0 then asOf else events[0].timestamp;
    if |events| > 0 {
      assert Fault(events, 0, asOf).Ok?;
    }
    forall x | x in events
      ensures first <= x.timestamp
    {
      var i :| 0 <= i < |events| && events[i] == x;
      if i > 0 {
        FollowsLater(events, asOf, 0, i);
      }
    }
    forall o | o in OwnersOf(events)
      ensures ReplayedPoints(events, epochs + [e], asOf)[o] == ReplayedPoints(events, epochs, asOf)[o]
    {
      OwnerStepsOrdered(events, asOf, o, first);
      LaterEpochIgnored(EMPTY_POSITION, epochs, OwnerSteps(events, o), first, asOf, e);
    }
  }

  /** Points never fall as `asOf` advances, with no further events. */
  lemma ReplayNeverFalls(events: seq<CollateralEvent>, epochs: seq<RateEpoch>, asOf: int, later: int, o: Owner)
    requires WellFormed(events, asOf) && Ordered(epochs) && asOf <= later && o in OwnersOf(events)
    ensures NoneNegative(events) && WellFormed(events, later)
    ensures ReplayedPoints(events, epochs, asOf)[o].points <= ReplayedPoints(events, epochs, later)[o].points
    ensures ReplayedPoints(events, epochs, asOf)[o].collateral == ReplayedPoints(events, epochs, later)[o].collateral
  {
    WellFormedPrefix(events, asOf, |events|);
    forall n | 0 <= n < |events|
      ensures Fault(events, n, later).Ok?
    {
      assert Fault(events, n, asOf).Ok?;
    }
    PointsNeverFall(PositionOf(events, epochs, o), epochs, asOf, later);
  }

  /** A removal the replay accepts is covered by the balance it is taken from, so its clamp never acts. */
  lemma ClampNeverReached(events: seq<CollateralEvent>, epochs: seq<RateEpoch>, asOf: int, n: nat)
    requires WellFormed(events, asOf) && n < |events| && events[n].kind != SupplyEvent
    ensures NoneNegative(events[..n])
    ensures 0 <= events[n].assets <= PositionOf(events[..n], epochs, events[n].owner).balance
  {
    WellFormedPrefix(events, asOf, n);
    BalanceIsNet(events[..n], epochs, asOf, events[n].owner);
    assert Fault(events, n, asOf).Ok?;
  }

  // ===== Accepted histories, in the chain's own terms =====

  /** The amounts of one kind of event for an owner. */
  function SumOf(events: seq<CollateralEvent>, o: Owner, kind: EventKind): int {
    if |events| == 0 then 0
    else
      var last := events[|events| - 1];
      SumOf(events[..|events| - 1], o, kind) + if last.owner == o && last.kind == kind then last.assets else 0
  }

  /** An owner's net is what was supplied less what was withdrawn and what was seized. */
  lemma {:induction false} NetBySums(events: seq<CollateralEvent>, o: Owner)
    ensures Net(events, o) == SumOf(events, o, SupplyEvent) - SumOf(events, o, WithdrawEvent) - SumOf(events, o, LiquidateEvent)
    decreases |events|
  {
    if |events| > 0 {
      NetBySums(events[..|events| - 1], o);
    }
  }

  /** Strictly ascending in chain order, never back in time. */
  predicate InChainOrder(events: seq<CollateralEvent>) {
    forall i, j :: 0 <= i < j < |events| ==>
      && (events[i].blockNumber < events[j].blockNumber
          || (events[i].blockNumber == events[j].blockNumber && events[i].logIndex < events[j].logIndex))
      && events[i].timestamp <= events[j].timestamp
  }

  /** No owner is ever left with less than nothing. */
  ghost predicate NeverOverdrawn(events: seq<CollateralEvent>) {
    forall n, o :: 0 <= n <= |events| ==> SumOf(events[..n], o, WithdrawEvent) + SumOf(events[..n], o, LiquidateEvent)
                                          <= SumOf(events[..n], o, SupplyEvent)
  }

  /** The histories accepted are exactly those a chain can produce: ordered, by `asOf`, unsigned and never overdrawn. */
  lemma AcceptedExactly(events: seq<CollateralEvent>, asOf: int)
    ensures WellFormed(events, asOf)
            <==> && InChainOrder(events) && NeverOverdrawn(events)
                 && forall e :: e in events ==> 0 <= e.assets && e.timestamp <= asOf
  {
    if WellFormed(events, asOf) {
      AcceptedIsSound(events, asOf);
    } else if InChainOrder(events) && NeverOverdrawn(events) && forall e :: e in events ==> 0 <= e.assets && e.timestamp <= asOf {
      forall n | 0 <= n < |events|
        ensures Fault(events, n, asOf).Ok?
      {
        NothingToFault(events, n, asOf);
      }
    }
  }

  lemma AcceptedIsSound(events: seq<CollateralEvent>, asOf: int)
    requires WellFormed(events, asOf)
    ensures InChainOrder(events) && NeverOverdrawn(events)
    ensures forall e :: e in events ==> 0 <= e.assets && e.timestamp <= asOf
  {
    forall i, j | 0 <= i < j < |events|
      ensures Follows(events[i], events[j])
    {
      FollowsLater(events, asOf, i, j);
    }
    forall n, o | 0 <= n <= |events|
      ensures SumOf(events[..n], o, WithdrawEvent) + SumOf(events[..n], o, LiquidateEvent) <= SumOf(events[..n], o, SupplyEvent)
    {
      WellFormedPrefix(events, asOf, n);
      BalanceIsNet(events[..n], [], asOf, o);
      NetBySums(events[..n], o);
    }
    forall e | e in events
      ensures 0 <= e.assets && e.timestamp <= asOf
    {
      var n :| 0 <= n < |events| && events[n] == e;
      assert Fault(events, n, asOf).Ok?;
    }
  }

  lemma NothingToFault(events: seq<CollateralEvent>, n: nat, asOf: int)
    requires n < |events| && InChainOrder(events) && NeverOverdrawn(events)
    requires forall e :: e in events ==> 0 <= e.assets && e.timestamp <= asOf
    ensures Fault(events, n, asOf).Ok?
  {
    assert events[n] in events;
    var o := events[n].owner;
    NetBySums(events[..n], o);
    NetBySums(events[..n + 1], o);
    assert events[..n + 1][..n] == events[..n];
    assert SumOf(events[..n + 1], o, WithdrawEvent) + SumOf(events[..n + 1], o, LiquidateEvent)
           <= SumOf(events[..n + 1], o, SupplyEvent);
  }
}
