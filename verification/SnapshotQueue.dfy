/**
 * The module state shared by concurrent snapshot requests: builds chained one after another,
 * answers shared with the build in flight, and histories dropped while builds still run on them.
 *
 * A step is one stretch of code between awaits. Reads succeed, fail and take time as they please;
 * what a build does to the data of its history is `MarketHistory`'s subject.
 */
module SnapshotQueue {
  import opened Wrappers

  const REBUILD_BACKOFF_MS: int := 60_000

  datatype Outcome = Resolved(block: int) | Rejected

  // A build waits for the one chained before it, runs on one history, and settles.
  datatype Phase = Waiting | Running(history: nat) | Settled(outcome: Outcome)

  datatype Build = Build(target: int, after: Option<nat>, phase: Phase)

  // A request is answered from the cached snapshot or with the promise of a build.
  datatype Answer = Cached(block: int) | Promise(build: nat)

  datatype Request = Request(target: int, answer: Answer)

  datatype State = State(
    clock: int,
    snapshots: seq<Option<int>>,  // the cached snapshot block of every history ever made
    current: Option<nat>,         // `history`
    rebuildAfter: int,
    builds: seq<Build>,
    queue: Option<nat>,           // the last build chained
    inflight: Option<nat>,
    requests: seq<Request>)

  datatype Step =
    | Arrive(target: int)
    | Start(build: nat)
    | Finish(build: nat)
    | Fail(build: nat, integrity: bool)
    | Drop(history: nat)
    | ClearInflight(build: nat)
    | Tick(ms: nat)

  const INITIAL := State(0, [], None, 0, [], None, None, [])

  predicate HasSettled(s: State, b: nat) {
    b < |s.builds| && s.builds[b].phase.Settled?
  }

  predicate IsRunning(s: State, b: nat) {
    b < |s.builds| && s.builds[b].phase.Running?
  }

  predicate Enabled(s: State, step: Step) {
    match step
    case Arrive(_) => true
    case Start(b) => b < |s.builds| && s.builds[b].phase.Waiting?
                     && (s.builds[b].after.Some? ==> HasSettled(s, s.builds[b].after.value))
    case Finish(b) => IsRunning(s, b) && s.builds[b].phase.history < |s.snapshots|
    case Fail(b, _) => IsRunning(s, b)
    case Drop(h) => h < |s.snapshots|
    case ClearInflight(b) => HasSettled(s, b)
    case Tick(_) => true
  }

  /** Drops a history unless a newer one has already replaced it. */
  function DropHistory(s: State, h: nat): State {
    if s.current != Some(h) then s else s.(current := None, rebuildAfter := s.clock + REBUILD_BACKOFF_MS)
  }

  function SetPhase(s: State, b: nat, phase: Phase): State
    requires b < |s.builds|
  {
    s.(builds := s.builds[b := s.builds[b].(phase := phase)])
  }

  predicate Covers(snapshot: Option<int>, target: int) {
    snapshot.Some? && snapshot.value >= target
  }

  function CurrentSnapshot(s: State): Option<int> {
    if s.current.Some? && s.current.value < |s.snapshots| then s.snapshots[s.current.value] else None
  }

  function OnArrive(s: State, target: int): State {
    if Covers(CurrentSnapshot(s), target) then
      s.(requests := s.requests + [Request(target, Cached(CurrentSnapshot(s).value))])
    else if s.inflight.Some? && s.inflight.value < |s.builds| && s.builds[s.inflight.value].target >= target then
      s.(requests := s.requests + [Request(target, Promise(s.inflight.value))])
    else
      var b := |s.builds|;
      s.(builds := s.builds + [Build(target, s.queue, Waiting)], queue := Some(b), inflight := Some(b),
         requests := s.requests + [Request(target, Promise(b))])
  }

  /** The history to build on, made anew when there is none. */
  function HistoryFor(s: State): State {
    if s.current.Some? then s else s.(snapshots := s.snapshots + [None], current := Some(|s.snapshots|))
  }

  /** A build's first stretch: find or make the history, and stop there if its snapshot is new enough. */
  function OnStart(s: State, b: nat): State
    requires b < |s.builds|
  {
    if s.current.None? && s.clock < s.rebuildAfter then SetPhase(s, b, Settled(Rejected))
    else
      var made := HistoryFor(s);
      if Covers(CurrentSnapshot(made), s.builds[b].target) then SetPhase(made, b, Settled(Resolved(CurrentSnapshot(made).value)))
      else SetPhase(made, b, Running(made.current.value))
  }

  function Next(s: State, step: Step): State
    requires Enabled(s, step)
  {
    match step
    case Arrive(target) => OnArrive(s, target)
    case Start(b) => OnStart(s, b)
    case Finish(b) =>
      var h := s.builds[b].phase.history;
      SetPhase(s, b, Settled(Resolved(s.builds[b].target))).(snapshots := s.snapshots[h := Some(s.builds[b].target)])
    case Fail(b, integrity) =>
      var failed := SetPhase(s, b, Settled(Rejected));
      if integrity then DropHistory(failed, s.builds[b].phase.history) else failed
    case Drop(h) => DropHistory(s, h)
    case ClearInflight(b) => if s.inflight == Some(b) then s.(inflight := None) else s
    case Tick(ms) => s.(clock := s.clock + ms)
  }

  // ===== The invariant =====

  /** Builds are chained in the order they were made, and none starts before the one before it settled. */
  predicate Serial(s: State) {
    && (s.queue == if |s.builds| == 0 then None else Some(|s.builds| - 1))
    && (forall b :: 0 <= b < |s.builds| ==> s.builds[b].after == if b == 0 then None else Some(b - 1))
    && (forall b :: 1 <= b < |s.builds| && !s.builds[b].phase.Waiting? ==> s.builds[b - 1].phase.Settled?)
  }

  /** A running build works on a history whose cached snapshot is still older than its target. */
  predicate RunsAhead(s: State) {
    forall b :: 0 <= b < |s.builds| && s.builds[b].phase.Running? ==>
      var h := s.builds[b].phase.history;
      h < |s.snapshots| && !Covers(s.snapshots[h], s.builds[b].target)
  }

  predicate Delivers(b: Build) {
    b.phase.Settled? && b.phase.outcome.Resolved? ==> b.phase.outcome.block >= b.target
  }

  predicate Answered(s: State, r: Request) {
    match r.answer
    case Cached(block) => block >= r.target
    case Promise(b) => b < |s.builds| && s.builds[b].target >= r.target
  }

  predicate Inv(s: State) {
    && (s.current.Some? ==> s.current.value < |s.snapshots|)
    && Serial(s) && RunsAhead(s)
    && (forall b :: 0 <= b < |s.builds| ==> Delivers(s.builds[b]))
    && (forall i :: 0 <= i < |s.requests| ==> Answered(s, s.requests[i]))
    // the newest build is shared until it settles
    && (s.inflight.Some? ==> s.inflight == s.queue)
    && (s.queue.Some? && !HasSettled(s, s.queue.value) ==> s.inflight == s.queue)
  }

  /** At most one build runs at any time. */
  lemma {:induction false} SettledBefore(s: State, a: nat, b: nat)
    requires Serial(s) && a < b < |s.builds| && !s.builds[b].phase.Waiting?
    ensures s.builds[a].phase.Settled?
    decreases b - a
  {
    if a + 1 < b {
      SettledBefore(s, a, b - 1);
    }
  }

  lemma OneBuildAtATime(s: State, a: nat, b: nat)
    requires Serial(s) && IsRunning(s, a) && IsRunning(s, b)
    ensures a == b
  {
    if a < b {
      SettledBefore(s, a, b);
    } else if b < a {
      SettledBefore(s, b, a);
    }
  }

  lemma NobodyRunsAtStart(s: State, b: nat)
    requires Serial(s) && Enabled(s, Start(b))
    ensures forall a :: 0 <= a < |s.builds| ==> !s.builds[a].phase.Running?
  {
    forall a | 0 <= a < |s.builds|
      ensures !s.builds[a].phase.Running?
    {
      if a > b {
        if s.builds[a].phase.Running? {
          SettledBefore(s, b, a);
        }
      } else if a < b - 1 {
        SettledBefore(s, a, b - 1);
      }
    }
  }

  lemma ArriveKeepsInv(s: State, target: int)
    requires Inv(s)
    ensures Inv(OnArrive(s, target))
  {
    var s' := OnArrive(s, target);
    forall i | 0 <= i < |s'.requests|
      ensures Answered(s', s'.requests[i])
    {
      if i < |s.requests| {
        assert Answered(s, s.requests[i]);
      }
    }
  }

  /** Changing one build's phase keeps the chain when the builds around it allow it. */
  lemma PhaseKeepsSerial(s: State, b: nat, phase: Phase)
    requires Serial(s) && b < |s.builds|
    requires s.builds[b].phase.Settled? ==> phase.Settled?
    requires !phase.Waiting? && b > 0 ==> s.builds[b - 1].phase.Settled?
    requires !phase.Settled? && b + 1 < |s.builds| ==> s.builds[b + 1].phase.Waiting?
    ensures Serial(SetPhase(s, b, phase))
  {
  }

  lemma StartKeepsInv(s: State, b: nat)
    requires Inv(s) && Enabled(s, Start(b))
    ensures Inv(OnStart(s, b))
  {
    NobodyRunsAtStart(s, b);
    if s.current.Some? || s.clock >= s.rebuildAfter {
      HistoryForKeepsInv(s);
      var made := HistoryFor(s);
      var phase := OnStart(s, b).builds[b].phase;
      SetPhaseKeepsInv(made, b, phase);
    } else {
      SetPhaseKeepsInv(s, b, Settled(Rejected));
    }
  }

  lemma HistoryForKeepsInv(s: State)
    requires Inv(s)
    ensures Inv(HistoryFor(s)) && HistoryFor(s).current.Some?
  {
  }

  lemma SetPhaseKeepsInv(s: State, b: nat, phase: Phase)
    requires Inv(s) && b < |s.builds| && !s.builds[b].phase.Settled? && !phase.Waiting?
    requires b > 0 ==> s.builds[b - 1].phase.Settled?
    requires b + 1 < |s.builds| ==> s.builds[b + 1].phase.Waiting?
    requires Delivers(s.builds[b].(phase := phase))
    requires phase.Running? ==> phase.history < |s.snapshots| && !Covers(s.snapshots[phase.history], s.builds[b].target)
    ensures Inv(SetPhase(s, b, phase))
  {
    PhaseKeepsSerial(s, b, phase);
    PhaseKeepsAnswers(s, SetPhase(s, b, phase));
  }

  lemma FinishKeepsInv(s: State, b: nat)
    requires Inv(s) && Enabled(s, Finish(b))
    ensures Inv(Next(s, Finish(b)))
  {
    var s' := Next(s, Finish(b));
    OthersNotRunning(s, b);
    PhaseKeepsSerial(s, b, s'.builds[b].phase);
    PhaseKeepsAnswers(s, s');
  }

  lemma FailKeepsInv(s: State, b: nat, integrity: bool)
    requires Inv(s) && Enabled(s, Fail(b, integrity))
    ensures Inv(Next(s, Fail(b, integrity)))
  {
    var s' := Next(s, Fail(b, integrity));
    PhaseKeepsSerial(s, b, s'.builds[b].phase);
    PhaseKeepsAnswers(s, s');
  }

  lemma StepKeepsInv(s: State, step: Step)
    requires Inv(s) && Enabled(s, step)
    ensures Inv(Next(s, step))
  {
    match step {
      case Arrive(target) => ArriveKeepsInv(s, target);
      case Start(b) => StartKeepsInv(s, b);
      case Finish(b) => FinishKeepsInv(s, b);
      case Fail(b, integrity) => FailKeepsInv(s, b, integrity);
      case _ => PhaseKeepsAnswers(s, Next(s, step));
    }
  }

  lemma OthersNotRunning(s: State, b: nat)
    requires Serial(s) && IsRunning(s, b)
    ensures forall a :: 0 <= a < |s.builds| && a != b ==> !s.builds[a].phase.Running?
  {
    forall a | 0 <= a < |s.builds| && a != b
      ensures !s.builds[a].phase.Running?
    {
      if s.builds[a].phase.Running? {
        OneBuildAtATime(s, a, b);
      }
    }
  }

  lemma PhaseKeepsAnswers(s: State, s': State)
    requires Inv(s) && s'.requests == s.requests && |s'.builds| == |s.builds|
    requires forall b :: 0 <= b < |s.builds| ==> s'.builds[b].target == s.builds[b].target
    ensures forall i :: 0 <= i < |s'.requests| ==> Answered(s', s'.requests[i])
  {
  }

  /** One step never lowers a history's cached block, and never forgets a settled answer. */
  predicate NotLowered(s: State, s': State) {
    && |s.snapshots| <= |s'.snapshots| && |s.builds| <= |s'.builds| && |s.requests| <= |s'.requests|
    && (forall h :: 0 <= h < |s.snapshots| && s.snapshots[h].Some? ==> Covers(s'.snapshots[h], s.snapshots[h].value))
    && (forall b :: 0 <= b < |s.builds| ==> s'.builds[b].target == s.builds[b].target
                                            && (s.builds[b].phase.Settled? ==> s'.builds[b].phase == s.builds[b].phase))
    && (forall i :: 0 <= i < |s.requests| ==> s'.requests[i] == s.requests[i])
  }

  lemma StepNotLowered(s: State, step: Step)
    requires Inv(s) && Enabled(s, step)
    ensures NotLowered(s, Next(s, step))
  {
    match step {
      case Arrive(target) => ArriveNotLowered(s, target);
      case Start(b) => StartNotLowered(s, b);
      case _ =>
    }
  }

  lemma ArriveNotLowered(s: State, target: int)
    ensures NotLowered(s, OnArrive(s, target))
  {
  }

  lemma StartNotLowered(s: State, b: nat)
    requires b < |s.builds| && s.builds[b].phase.Waiting?
    ensures NotLowered(s, OnStart(s, b))
  {
  }

  // ===== Every run =====

  predicate Possible(s: State, steps: seq<Step>)
    decreases |steps|
  {
    |steps| > 0 ==> Enabled(s, steps[0]) && Possible(Next(s, steps[0]), steps[1..])
  }

  function After(s: State, steps: seq<Step>): State
    requires Possible(s, steps)
    decreases |steps|
  {
    if |steps| == 0 then s else After(Next(s, steps[0]), steps[1..])
  }

  lemma {:induction false} RunKeepsInv(s: State, steps: seq<Step>)
    requires Inv(s) && Possible(s, steps)
    ensures Inv(After(s, steps)) && NotLowered(s, After(s, steps))
    decreases |steps|
  {
    if |steps| > 0 {
      StepKeepsInv(s, steps[0]);
      StepNotLowered(s, steps[0]);
      RunKeepsInv(Next(s, steps[0]), steps[1..]);
    }
  }

  /** What a request has been given so far, if anything. */
  function Given(s: State, r: Request): Option<int> {
    match r.answer
    case Cached(block) => Some(block)
    case Promise(b) =>
      if HasSettled(s, b) && s.builds[b].phase.outcome.Resolved? then Some(s.builds[b].phase.outcome.block) else None
  }

  /**
   * Under any interleaving of requests, builds, failures and drops: whatever a request is given is at
   * or after the block it asked for and stays so, and at most one build runs.
   */
  lemma EveryRunServes(before: seq<Step>, later: seq<Step>)
    requires Possible(INITIAL, before) && Possible(After(INITIAL, before), later)
    ensures var s, s' := After(INITIAL, before), After(After(INITIAL, before), later);
            && (forall i :: 0 <= i < |s.requests| && Given(s, s.requests[i]).Some? ==>
                  && Given(s, s.requests[i]).value >= s.requests[i].target
                  && i < |s'.requests| && Given(s', s'.requests[i]) == Given(s, s.requests[i]))
            && (forall a, b :: IsRunning(s, a) && IsRunning(s, b) ==> a == b)
  {
    RunKeepsInv(INITIAL, before);
    var s := After(INITIAL, before);
    RunKeepsInv(s, later);
    var s' := After(s, later);
    forall i | 0 <= i < |s.requests| && Given(s, s.requests[i]).Some?
      ensures Given(s, s.requests[i]).value >= s.requests[i].target && Given(s', s'.requests[i]) == Given(s, s.requests[i])
    {
      assert Answered(s, s.requests[i]);
      if s.requests[i].answer.Promise? {
        assert Delivers(s.builds[s.requests[i].answer.build]);
      }
    }
    forall a, b | IsRunning(s, a) && IsRunning(s, b)
      ensures a == b
    {
      OneBuildAtATime(s, a, b);
    }
  }

  /** No history's cached snapshot block ever goes down, dropped or not. */
  lemma CachedBlockNeverFalls(before: seq<Step>, later: seq<Step>, h: nat)
    requires Possible(INITIAL, before) && Possible(After(INITIAL, before), later)
    requires h < |After(INITIAL, before).snapshots| && After(INITIAL, before).snapshots[h].Some?
    ensures var s, s' := After(INITIAL, before), After(After(INITIAL, before), later);
            h < |s'.snapshots| && s'.snapshots[h].Some? && s.snapshots[h].value <= s'.snapshots[h].value
  {
    RunKeepsInv(INITIAL, before);
    RunKeepsInv(After(INITIAL, before), later);
  }

  lemma {:induction false} ClockAdvances(s: State, steps: seq<Step>)
    requires Possible(s, steps)
    ensures s.clock <= After(s, steps).clock
    decreases |steps|
  {
    if |steps| > 0 {
      ClockAdvances(Next(s, steps[0]), steps[1..]);
    }
  }

  /** After an integrity failure drops the current history, no run makes another before the backoff has passed. */
  lemma {:induction false} RebuildWaits(s: State, steps: seq<Step>)
    requires s.current.None? && Possible(s, steps) && After(s, steps).clock < s.rebuildAfter
    ensures After(s, steps).current.None? && |After(s, steps).snapshots| == |s.snapshots|
    decreases |steps|
  {
    if |steps| > 0 {
      ClockAdvances(s, steps);
      ClockAdvances(Next(s, steps[0]), steps[1..]);
      RebuildWaits(Next(s, steps[0]), steps[1..]);
    }
  }

  lemma DropStartsBackoff(s: State, h: nat, steps: seq<Step>)
    requires s.current == Some(h)
    requires Possible(DropHistory(s, h), steps) && After(DropHistory(s, h), steps).clock < s.clock + REBUILD_BACKOFF_MS
    ensures After(DropHistory(s, h), steps).current.None? && |After(DropHistory(s, h), steps).snapshots| == |s.snapshots|
  {
    RebuildWaits(DropHistory(s, h), steps);
  }

  // ===== Every request is answered =====

  /**
   * A build that succeeds serves everyone: over the rest of any run every request promised it has
   * been given a block at or after its target, and the history it ran on keeps a snapshot covering it.
   */
  lemma FinishServes(before: seq<Step>, b: nat, later: seq<Step>)
    requires Possible(INITIAL, before) && Enabled(After(INITIAL, before), Finish(b))
    requires Possible(Next(After(INITIAL, before), Finish(b)), later)
    ensures var s := After(INITIAL, before);
            var s', h := After(Next(s, Finish(b)), later), s.builds[b].phase.history;
            && h < |s'.snapshots| && Covers(s'.snapshots[h], s.builds[b].target)
            && forall i :: 0 <= i < |s'.requests| && s'.requests[i].answer == Promise(b) ==>
                 Given(s', s'.requests[i]).Some? && Given(s', s'.requests[i]).value >= s'.requests[i].target
  {
    RunKeepsInv(INITIAL, before);
    var s := After(INITIAL, before);
    StepKeepsInv(s, Finish(b));
    RunKeepsInv(Next(s, Finish(b)), later);
    var s' := After(Next(s, Finish(b)), later);
    forall i | 0 <= i < |s'.requests| && s'.requests[i].answer == Promise(b)
      ensures Given(s', s'.requests[i]).Some? && Given(s', s'.requests[i]).value >= s'.requests[i].target
    {
      assert Answered(s', s'.requests[i]);
    }
  }

  predicate IsRejected(s: State, b: nat) {
    b < |s.builds| && s.builds[b].phase == Settled(Rejected)
  }

  /** A step that may reject build `b`: its own failure, or its own start inside the backoff. */
  predicate Rejects(s: State, step: Step, b: nat) {
    step == Fail(b, true) || step == Fail(b, false) || (step == Start(b) && s.current.None? && s.clock < s.rebuildAfter)
  }

  lemma {:induction false} PossiblePrefix(s: State, steps: seq<Step>, n: nat)
    requires Possible(s, steps) && n <= |steps|
    ensures Possible(s, steps[..n])
    decreases n
  {
    if n > 0 {
      PossiblePrefix(Next(s, steps[0]), steps[1..], n - 1);
      assert steps[..n][1..] == steps[1..][..n - 1];
    }
  }

  lemma {:induction false} RejectedFrom(s: State, steps: seq<Step>, b: nat) returns (n: nat)
    requires Possible(s, steps) && !IsRejected(s, b) && IsRejected(After(s, steps), b)
    ensures n < |steps| && Possible(s, steps[..n]) && Rejects(After(s, steps[..n]), steps[n], b)
    decreases |steps|
  {
    var next := Next(s, steps[0]);
    if IsRejected(next, b) {
      n := 0;
    } else {
      n := RejectedFrom(next, steps[1..], b);
      n := n + 1;
      PossiblePrefix(s, steps, n);
      assert steps[..n][1..] == steps[1..][..n - 1];
    }
  }

  /** In every run a build is rejected by one of those steps only. */
  lemma RejectedOnlyByItself(steps: seq<Step>, b: nat) returns (n: nat)
    requires Possible(INITIAL, steps) && IsRejected(After(INITIAL, steps), b)
    ensures n < |steps| && Possible(INITIAL, steps[..n]) && Rejects(After(INITIAL, steps[..n]), steps[n], b)
  {
    n := RejectedFrom(INITIAL, steps, b);
  }

  /**
   * An arriving request is answered at once from a current snapshot that covers it, joins the build in
   * flight when that one's target does, and otherwise gets one new build of its own target, behind the
   * last one chained.
   */
  lemma ArriveExactly(before: seq<Step>, target: int)
    requires Possible(INITIAL, before)
    ensures var s := After(INITIAL, before);
            var s', snapshot := Next(s, Arrive(target)), CurrentSnapshot(s);
            var r := s'.requests[|s'.requests| - 1];
            && |s'.requests| == |s.requests| + 1 && r.target == target
            && (s.inflight.Some? ==> s.inflight.value < |s.builds|)
            && (if snapshot.Some? && target <= snapshot.value then
                  Given(s', r) == snapshot && s'.builds == s.builds && s'.inflight == s.inflight
                else if s.inflight.Some? && target <= s.builds[s.inflight.value].target then
                  r.answer == Promise(s.inflight.value) && s'.builds == s.builds && s'.inflight == s.inflight
                else
                  && r.answer == Promise(|s.builds|) && s'.inflight == s'.queue == Some(|s.builds|)
                  && s'.builds == s.builds + [Build(target, s.queue, Waiting)])
  {
    RunKeepsInv(INITIAL, before);
  }

  /** Outside the backoff a build that starts runs on the current history, or is served by its snapshot at once. */
  lemma StartExactly(s: State, b: nat)
    requires Inv(s) && Enabled(s, Start(b))
    ensures var s' := Next(s, Start(b));
            if s.current.None? && s.clock < s.rebuildAfter then IsRejected(s', b) && s'.current.None?
            else
              && s'.current.Some? && (s.current.Some? ==> s'.current == s.current)
              && (s.current.None? ==> s'.current == Some(|s.snapshots|) && s'.snapshots == s.snapshots + [None])
              && (if Covers(CurrentSnapshot(s'), s.builds[b].target)
                  then s'.builds[b].phase == Settled(Resolved(CurrentSnapshot(s').value))
                  else s'.builds[b].phase == Running(s'.current.value))
  {
  }

  /** Only an integrity failure drops a history: the build's own, if it is still current, and then the backoff runs. */
  lemma FailExactly(s: State, b: nat, integrity: bool)
    requires Inv(s) && Enabled(s, Fail(b, integrity))
    ensures var s' := Next(s, Fail(b, integrity));
            && IsRejected(s', b) && s'.snapshots == s.snapshots
            && (if integrity && s.current == Some(s.builds[b].phase.history)
                then s'.current == None && s'.rebuildAfter == s.clock + REBUILD_BACKOFF_MS
                else s'.current == s.current && s'.rebuildAfter == s.rebuildAfter)
  {
  }

  /** A dropped history never becomes current again, in any run. */
  lemma {:induction false} DroppedForGood(s: State, steps: seq<Step>, h: nat)
    requires h < |s.snapshots| && s.current != Some(h) && Possible(s, steps)
    ensures h < |After(s, steps).snapshots| && After(s, steps).current != Some(h)
    decreases |steps|
  {
    if |steps| > 0 {
      DroppedForGood(Next(s, steps[0]), steps[1..], h);
    }
  }
}
