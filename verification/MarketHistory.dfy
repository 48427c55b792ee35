/**
 * The in-memory history of one market, extended a chunk at a time from reads that may fail, lie
 * short or come too late. A chunk is kept only once every owner it could over-credit has been read
 * from the market at the chunk's last block.
 */
module MarketHistory {
  import opened Arith
  import opened RateEpochs
  import opened CollateralReplay
  import opened HistoryCommits
  import opened Sorting
  import opened Wrappers

  const MAX_CHUNKS_PER_REQUEST: nat := 400
  const REBUILD_BACKOFF_MS: int := 60_000

  // `NotReady` clears on its own, `Integrity` drops the history, `Transport` is any other failure.
  datatype Failure = NotReady | Integrity | Transport

  datatype EpochLog = EpochLog(index: int, epoch: RateEpoch)

  // A read that fails, or one whose answer contradicts itself (a log outside its block, a pending block).
  datatype NodeFailure = Unavailable | Inconsistent

  function FailureOf(f: NodeFailure): Failure {
    if f.Unavailable? then Transport else Integrity
  }

  /**
   * What a failure may be put down to: a transport failure to a read that went unanswered, an
   * integrity failure to an answer that contradicts itself or the history.
   */
  predicate Blames(failure: Failure, unanswered: bool, contradicted: bool) {
    (failure == Transport ==> unanswered) && (failure == Integrity ==> contradicted)
  }

  /** What the node answers within one request, which asks each question at most once. */
  datatype NodeReads = NodeReads(
    collateralLogs: (int, int) -> Result<seq<CollateralEvent>, NodeFailure>,
    position: (Owner, int) -> Result<int, NodeFailure>,
    epochLogs: (int, int) -> Result<seq<EpochLog>, NodeFailure>,
    epochCount: int -> Result<int, NodeFailure>,
    market: int -> Result<(), NodeFailure>,
    wiring: int -> Result<(), NodeFailure>,
    lateForRates: nat -> bool,
    late: nat -> bool)

  /** Chain order. */
  predicate NotAfter(a: CollateralEvent, b: CollateralEvent) {
    a.blockNumber < b.blockNumber || (a.blockNumber == b.blockNumber && a.logIndex <= b.logIndex)
  }

  /** The chain as it is: what the market holds for each owner at each block, and the ledger's rate epochs. */
  datatype Truth = Truth(held: (Owner, int) -> int, ledger: int -> RateEpoch, epochCount: int -> int)

  /** Position and count reads give the chain's own figures, and an epoch log is the ledger's epoch of its index. */
  ghost predicate Truthful(node: NodeReads, truth: Truth) {
    && (forall o: Owner, b: int :: node.position(o, b).Ok? ==> node.position(o, b).value == truth.held(o, b))
    && (forall b: int :: node.epochCount(b).Ok? ==> node.epochCount(b).value == truth.epochCount(b))
    && (forall from: int, to: int :: node.epochLogs(from, to).Ok? ==> LedgerEpochs(node.epochLogs(from, to).value, truth))
  }

  ghost predicate LedgerEpochs(logs: seq<EpochLog>, truth: Truth) {
    forall i :: 0 <= i < |logs| ==> logs[i].epoch == truth.ledger(logs[i].index)
  }

  /** The epochs are the ledger's first ones. */
  ghost predicate OfLedger(epochs: seq<RateEpoch>, truth: Truth) {
    forall i :: 0 <= i < |epochs| ==> epochs[i] == truth.ledger(i)
  }

  datatype Snapshot = Snapshot(asOfBlock: int, asOfTimestamp: int, owners: map<Owner, OwnerPoints>, rateEpochs: nat)

  /** Balances as the fold of the events: one entry per owner seen, its net, never negative. */
  ghost predicate Balanced(balances: map<Owner, int>, owners: seq<Owner>, events: seq<CollateralEvent>) {
    && owners == FirstSeen(events)
    && (forall o :: o in balances <==> o in owners)
    && (forall o :: o in balances ==> balances[o] == Net(events, o) >= 0)
  }

  /** What one more event leaves its owner holding. */
  function After(balances: map<Owner, int>, event: CollateralEvent): int {
    (if event.owner in balances then balances[event.owner] else 0) + Delta(event)
  }

  lemma OneMoreBalance(balances: map<Owner, int>, owners: seq<Owner>, events: seq<CollateralEvent>, event: CollateralEvent)
    requires Balanced(balances, owners, events)
    ensures After(balances, event) == Net(events + [event], event.owner)
    ensures After(balances, event) >= 0 ==>
              Balanced(balances[event.owner := After(balances, event)],
                       if event.owner in balances then owners else owners + [event.owner], events + [event])
  {
    assert (events + [event])[..|events|] == events;
    FirstSeenMembers(events);
    if event.owner !in balances {
      NetOfStranger(events, event.owner);
    }
  }

  lemma CommitExtendsChain(commits: seq<Commit>, c: Commit, fromBlock: int)
    requires Chained(commits, fromBlock)
    requires Extends(c, EventsBefore(commits, |commits|), NextBlock(commits, |commits|, fromBlock), fromBlock)
    ensures Chained(commits + [c], fromBlock)
  {
    var chain := commits + [c];
    forall k | 0 <= k < |chain|
      ensures Linked(chain, k, fromBlock)
    {
      if k < |commits| {
        assert Linked(commits, k, fromBlock);
      }
    }
  }

  // ===== Which chunks are kept =====

  /** No removal in `decoded` takes its owner below zero. */
  predicate NeverNegative(before: seq<CollateralEvent>, decoded: seq<CollateralEvent>) {
    forall n :: 0 <= n < |decoded| ==> Covered(before, decoded, n)
  }

  predicate Covered(before: seq<CollateralEvent>, decoded: seq<CollateralEvent>, n: nat)
    requires n < |decoded|
  {
    Net(before + decoded[..n] + [decoded[n]], decoded[n].owner) >= 0
  }

  predicate AllWithin(logs: seq<CollateralEvent>, from: int, to: int) {
    forall i :: 0 <= i < |logs| ==> from <= logs[i].blockNumber <= to
  }

  predicate StartsAfter(decoded: seq<CollateralEvent>, before: seq<CollateralEvent>) {
    |before| > 0 && |decoded| > 0 ==> !NotAfter(decoded[0], before[|before| - 1])
  }

  /** The chunk's logs in chain order. */
  function Decoded(node: NodeReads, from: int, to: int): seq<CollateralEvent>
    requires node.collateralLogs(from, to).Ok?
  {
    SortBy(node.collateralLogs(from, to).value, NotAfter)
  }

  /** The chunk's events can be read and continue the history. */
  predicate Readable(node: NodeReads, before: seq<CollateralEvent>, from: int, to: int) {
    var logs := node.collateralLogs(from, to);
    && logs.Ok? && AllWithin(logs.value, from, to)
    && StartsAfter(Decoded(node, from, to), before) && NeverNegative(before, Decoded(node, from, to))
  }

  /** The chunk's logs contradict themselves, their range or the history. */
  predicate LogsContradict(node: NodeReads, before: seq<CollateralEvent>, from: int, to: int) {
    var logs := node.collateralLogs(from, to);
    logs == Err(Inconsistent) || (logs.Ok? && !Readable(node, before, from, to))
  }

  predicate PositionUnanswered(node: NodeReads, o: Owner, block: int) {
    node.position(o, block) == Err(Unavailable)
  }

  /** The market's answer contradicts itself or what the history expects of the owner. */
  predicate PositionContradicts(node: NodeReads, o: Owner, block: int, expected: int) {
    var position := node.position(o, block);
    position == Err(Inconsistent) || (position.Ok? && position.value != expected)
  }

  /** The market confirms every due owner's collateral at the chunk's end. */
  predicate Reconciles(node: NodeReads, before: seq<CollateralEvent>, through: seq<CollateralEvent>, chunk: int, to: int)
    requires |before| <= |through|
  {
    forall o :: o in DueOwners(before, through, chunk) ==> node.position(o, to) == Ok(Net(through, o))
  }

  /** A chunk is kept if and only if it is readable and reconciles. */
  predicate Accepted(node: NodeReads, before: seq<CollateralEvent>, from: int, to: int, chunk: int) {
    Readable(node, before, from, to) && Reconciles(node, before, before + Decoded(node, from, to), chunk, to)
  }

  /** A chunk's logs in chain order, refused outside the range. */
  method ReadChunk(node: NodeReads, from: int, to: int) returns (r: Result<seq<CollateralEvent>, Failure>)
    ensures r.Ok? ==> forall j :: 0 <= j < |r.value| ==> from <= r.value[j].blockNumber <= to
    ensures r.Ok? ==> Sorted(r.value, NotAfter)
    ensures r != Err(NotReady)
    ensures r.Ok? <==> node.collateralLogs(from, to).Ok? && AllWithin(node.collateralLogs(from, to).value, from, to)
    ensures r.Err? ==>
              var logs := node.collateralLogs(from, to);
              Blames(r.error, logs == Err(Unavailable), logs == Err(Inconsistent) || (logs.Ok? && !AllWithin(logs.value, from, to)))
    ensures r.Ok? ==> r.value == Decoded(node, from, to) && multiset(r.value) == multiset(node.collateralLogs(from, to).value)
  {
    var logs := node.collateralLogs(from, to);
    if logs.Err? {
      return Err(FailureOf(logs.error));
    }
    if exists i :: 0 <= i < |logs.value| && !(from <= logs.value[i].blockNumber <= to) {
      return Err(Integrity);
    }
    var decoded := SortBy(logs.value, NotAfter);
    SortByIsSort(logs.value, NotAfter);
    forall j | 0 <= j < |decoded|
      ensures from <= decoded[j].blockNumber <= to
    {
      assert decoded[j] in multiset(decoded);
      assert decoded[j] in logs.value;
    }
    return Ok(decoded);
  }

  /** Folds one event, refusing a removal of more than the history holds. */
  method ApplyEvent(balances: map<Owner, int>, owners: seq<Owner>, event: CollateralEvent, ghost events: seq<CollateralEvent>)
    returns (ok: bool, after: map<Owner, int>, known: seq<Owner>)
    requires Balanced(balances, owners, events)
    ensures ok ==> Balanced(after, known, events + [event])
    ensures ok <==> Net(events + [event], event.owner) >= 0
  {
    OneMoreBalance(balances, owners, events, event);
    var before := if event.owner in balances then balances[event.owner] else 0;
    var next := if event.kind == SupplyEvent then before + event.assets else before - event.assets;
    known := if event.owner in balances then owners else owners + [event.owner];
    after := balances[event.owner := next];
    ok := next >= 0;
  }

  /** Applies a chunk's decoded events to copies of the balances and owners. */
  method ApplyEvents(events: seq<CollateralEvent>, balances: map<Owner, int>, owners: seq<Owner>, decoded: seq<CollateralEvent>)
    returns (ok: bool, after: map<Owner, int>, known: seq<Owner>, touched: set<Owner>)
    requires Balanced(balances, owners, events)
    ensures ok ==> Balanced(after, known, events + decoded) && touched == OwnersOf(decoded)
    ensures ok <==> NeverNegative(events, decoded)
  {
    ok, after, known, touched := true, balances, owners, {};
    ghost var history := events;
    assert events + decoded[..0] == events;
    for n := 0 to |decoded|
      invariant ok && history == events + decoded[..n] && Balanced(after, known, history)
      invariant touched == OwnersOf(decoded[..n])
      invariant forall m :: 0 <= m < n ==> Covered(events, decoded, m)
    {
      OneMoreDecoded(events, decoded, n);
      ok, after, known := ApplyEvent(after, known, decoded[n], history);
      if !ok {
        assert !Covered(events, decoded, n);
        return;
      }
      history := history + [decoded[n]];
      touched := touched + {decoded[n].owner};
    }
    assert decoded[..|decoded|] == decoded;
  }

  lemma OneMoreDecoded(events: seq<CollateralEvent>, decoded: seq<CollateralEvent>, n: nat)
    requires n < |decoded|
    ensures events + decoded[..n + 1] == events + decoded[..n] + [decoded[n]]
    ensures OwnersOf(decoded[..n + 1]) == OwnersOf(decoded[..n]) + {decoded[n].owner}
  {
    assert decoded[..n + 1] == decoded[..n] + [decoded[n]];
  }

  /** The owners to read at the end of a chunk, in the order the history knows them. */
  method SelectDue(known: seq<Owner>, after: map<Owner, int>, touched: set<Owner>, chunk: int,
                   ghost before: seq<CollateralEvent>, ghost decoded: seq<CollateralEvent>)
    returns (due: seq<Owner>)
    requires Balanced(after, known, before + decoded) && touched == OwnersOf(decoded)
    ensures (set o | o in due) == DueOwners(before, before + decoded, chunk)
    ensures forall o :: o in due ==> o in after
  {
    ghost var through := before + decoded;
    assert through[|before|..] == decoded;
    due := [];
    for i := 0 to |known|
      invariant forall o :: o in due <==> exists j: nat :: j < i && IsDue(before, through, chunk, j) && known[j] == o
    {
      if known[i] in touched || after[known[i]] != 0 || i % ZERO_HELD_GRID_CHUNKS == chunk % ZERO_HELD_GRID_CHUNKS {
        due := due + [known[i]];
        assert IsDue(before, through, chunk, i);
      }
    }
  }

  /** The market served: its key names the market, its first block and its oracle. */
  datatype Config = Config(key: string, fromBlock: int, deploymentBlock: int) {
    predicate Valid() { 1 <= fromBlock && 1 <= deploymentBlock }
  }

  class History {
    const key: string
    const fromBlock: int
    const deploymentBlock: int
    // The chain behind the node, for a history whose node answers truthfully.
    ghost const truth: Truth
    ghost const truthful: bool

    var events: seq<CollateralEvent>
    var scannedTo: int
    var owners: seq<Owner>
    var balances: map<Owner, int>
    ghost var commits: seq<Commit>

    var epochs: seq<RateEpoch>
    var epochsScannedTo: int
    var epochsVerifiedTo: int

    var verified: bool
    var snapshot: Option<Snapshot>

    /** The next block to scan, 0 standing for a history that has scanned nothing. */
    function Next(): int
      reads this`scannedTo
    {
      if scannedTo == 0 then fromBlock else scannedTo + 1
    }

    ghost predicate Valid()
      reads this`events, this`scannedTo, this`owners, this`balances, this`commits
    {
      && 1 <= fromBlock && (forall o, b :: truth.held(o, b) >= 0)
      && Chained(commits, fromBlock)
      && events == EventsBefore(commits, |commits|) && Next() == NextBlock(commits, |commits|, fromBlock)
      && (|commits| == 0 <==> scannedTo == 0) && 0 <= scannedTo
      && Balanced(balances, owners, events)
      && (truthful ==> forall c :: c in commits ==> Backed(c, truth.held))
    }

    /** The rate history: the ledger's own epochs, as many as it counted at the block last verified. */
    ghost predicate EpochsValid()
      reads this`epochs, this`epochsScannedTo, this`epochsVerifiedTo
    {
      && 1 <= deploymentBlock && 0 <= epochsVerifiedTo <= epochsScannedTo
      && (truthful ==> OfLedger(epochs, truth))
      && (truthful && 0 < epochsVerifiedTo == epochsScannedTo ==> |epochs| == truth.epochCount(epochsScannedTo))
    }

    /** The cached snapshot credits no owner with more than the market holds at its block. */
    ghost predicate SnapshotValid()
      reads this`snapshot
    {
      snapshot.Some? && truthful ==>
        forall o :: o in snapshot.value.owners ==> snapshot.value.owners[o].collateral <= truth.held(o, snapshot.value.asOfBlock)
    }

    constructor (config: Config, ghost truth: Truth, ghost truthful: bool)
      requires config.Valid() && forall o, b :: truth.held(o, b) >= 0
      ensures Valid() && EpochsValid() && SnapshotValid() && commits == [] && epochs == [] && snapshot == None
      ensures key == config.key && this.truth == truth && this.truthful == truthful
    {
      key, fromBlock, deploymentBlock := config.key, config.fromBlock, config.deploymentBlock;
      this.truth, this.truthful := truth, truthful;
      events, scannedTo, owners, balances, commits := [], 0, [], map[], [];
      epochs, epochsScannedTo, epochsVerifiedTo := [], 0, 0;
      verified, snapshot := false, None;
    }

    /** Checks each owner's collateral in the market at `block` against what is expected. */
    method ReconcileAt(node: NodeReads, due: seq<Owner>, expected: map<Owner, int>, block: int) returns (r: Result<(), Failure>)
      requires forall o :: o in due ==> o in expected
      ensures r.Ok? ==> forall o :: o in due ==> node.position(o, block) == Ok(expected[o])
      ensures r.Err? ==> r.error != NotReady && exists o :: o in due && node.position(o, block) != Ok(expected[o])
      ensures r.Err? ==> Blames(r.error, exists o :: o in due && PositionUnanswered(node, o, block),
                                exists o :: o in due && PositionContradicts(node, o, block, expected[o]))
    {
      for i := 0 to |due|
        invariant forall j :: 0 <= j < i ==> node.position(due[j], block) == Ok(expected[due[j]])
      {
        var position := node.position(due[i], block);
        assert due[i] in due && (PositionUnanswered(node, due[i], block) <==> position == Err(Unavailable));
        assert PositionContradicts(node, due[i], block, expected[due[i]])
          <==> position == Err(Inconsistent) || (position.Ok? && position.value != expected[due[i]]);
        if position.Err? {
          return Err(FailureOf(position.error));
        }
        if position.value != expected[due[i]] {
          return Err(Integrity);
        }
      }
      return Ok(());
    }

    /** Keeps a checked chunk. */
    method Keep(ghost c: Commit, through: seq<CollateralEvent>, known: seq<Owner>, after: map<Owner, int>, to: int)
      requires Valid() && Extends(c, events, Next(), fromBlock) && c.events == through && c.to == to
      requires Balanced(after, known, through) && (truthful ==> Backed(c, truth.held))
      modifies this`events, this`scannedTo, this`owners, this`balances, this`commits
      ensures Valid() && events == through && scannedTo == to && commits == old(commits) + [c]
    {
      CommitExtendsChain(commits, c, fromBlock);
      events, owners, balances, scannedTo, commits := through, known, after, to, commits + [c];
    }

    /** Where the chunk holding the next block ends, cut at `toBlock`. */
    function ChunkTarget(toBlock: int): int
      reads this
    {
      Min(ChunkEnd(fromBlock, ChunkOf(fromBlock, Next())), toBlock)
    }

    /** Reads the next chunk's events and folds them, without keeping anything yet. */
    method ReadNext(node: NodeReads, to: int)
      returns (r: Result<seq<CollateralEvent>, Failure>, after: map<Owner, int>, known: seq<Owner>, due: seq<Owner>)
      requires Valid()
      ensures r.Err? ==> r.error != NotReady
      ensures r.Ok? <==> Readable(node, events, Next(), to)
      ensures r.Err? ==> Blames(r.error, node.collateralLogs(Next(), to) == Err(Unavailable), LogsContradict(node, events, Next(), to))
      ensures r.Ok? ==>
                && r.value == Decoded(node, Next(), to)
                && AllWithin(r.value, Next(), to)
                && Balanced(after, known, events + r.value)
                && (set o | o in due) == DueOwners(events, events + r.value, ChunkOf(fromBlock, Next()))
                && forall o :: o in due ==> o in after
    {
      after, known, due := map[], [], [];
      r := ReadChunk(node, Next(), to);
      if r.Err? {
        return;
      }
      var decoded := r.value;
      if |events| > 0 && |decoded| > 0 && NotAfter(decoded[0], events[|events| - 1]) {
        r := Err(Integrity);
        return;
      }
      var ok, touched;
      ok, after, known, touched := ApplyEvents(events, balances, owners, decoded);
      if !ok {
        r := Err(Integrity);
        return;
      }
      due := SelectDue(known, after, touched, ChunkOf(fromBlock, Next()), events, decoded);
    }

    /** The next chunk up to `toBlock` would be kept. */
    predicate NextAccepted(node: NodeReads, toBlock: int)
      reads this
    {
      Accepted(node, events, Next(), ChunkTarget(toBlock), ChunkOf(fromBlock, Next()))
    }

    predicate IsDueNext(node: NodeReads, o: Owner, toBlock: int)
      reads this
    {
      var to := ChunkTarget(toBlock);
      Readable(node, events, Next(), to) && o in DueOwners(events, events + Decoded(node, Next(), to), ChunkOf(fromBlock, Next()))
    }

    /** A read of the next chunk, of its logs or of an owner due, goes unanswered. */
    ghost predicate ChunkUnanswered(node: NodeReads, toBlock: int)
      reads this
    {
      || node.collateralLogs(Next(), ChunkTarget(toBlock)) == Err(Unavailable)
      || exists o :: IsDueNext(node, o, toBlock) && PositionUnanswered(node, o, ChunkTarget(toBlock))
    }

    /** An answer of the next chunk contradicts itself or the history. */
    ghost predicate ChunkContradicted(node: NodeReads, toBlock: int)
      reads this
    {
      || LogsContradict(node, events, Next(), ChunkTarget(toBlock))
      || exists o :: IsDueNext(node, o, toBlock)
           && PositionContradicts(node, o, ChunkTarget(toBlock), Net(events + Decoded(node, Next(), ChunkTarget(toBlock)), o))
    }

    /**
     * Reads, checks and commits the next chunk up to `toBlock`: kept if and only if it is accepted;
     * on any failure the history stays as it was.
     */
    method ExtendChunk(node: NodeReads, toBlock: int) returns (r: Result<int, Failure>)
      requires Valid() && Next() <= toBlock && (truthful ==> Truthful(node, truth))
      modifies this`events, this`scannedTo, this`owners, this`balances, this`commits
      ensures Valid()
      ensures r.Ok? <==> old(NextAccepted(node, toBlock))
      ensures r.Err? ==> Blames(r.error, old(ChunkUnanswered(node, toBlock)), old(ChunkContradicted(node, toBlock)))
      ensures r.Err? ==> r.error != NotReady && events == old(events) && scannedTo == old(scannedTo)
                         && owners == old(owners) && balances == old(balances) && commits == old(commits)
      ensures r.Ok? ==>
                && r.value == scannedTo == old(ChunkTarget(toBlock))
                && events == old(events) + Decoded(node, old(Next()), scannedTo)
                && old(Next()) <= scannedTo && old(events) <= events && |commits| == |old(commits)| + 1 && old(commits) <= commits
                && forall o :: o in commits[|commits| - 1].due ==> node.position(o, scannedTo) == Ok(Net(events, o))
    {
      var from := Next();
      var end := fromBlock + ((from - fromBlock) / BLOCK_CHUNK + 1) * BLOCK_CHUNK - 1;
      var to := if end < toBlock then end else toBlock;
      assert to == ChunkTarget(toBlock) && from <= to;
      var chunkLogs, after, known := ReadReconciled(node, to, toBlock);
      if chunkLogs.Err? {
        return Err(chunkLogs.error);
      }
      KeepReconciled(node, to, chunkLogs.value, known, after);
      return Ok(to);
    }

    /** Reads the next chunk and the positions of its due owners, without keeping anything yet. */
    method ReadReconciled(node: NodeReads, to: int, ghost toBlock: int)
      returns (r: Result<seq<CollateralEvent>, Failure>, after: map<Owner, int>, known: seq<Owner>)
      requires Valid() && to == ChunkTarget(toBlock)
      ensures r.Ok? <==> NextAccepted(node, toBlock)
      ensures r.Err? ==> r.error != NotReady && Blames(r.error, ChunkUnanswered(node, toBlock), ChunkContradicted(node, toBlock))
      ensures r.Ok? ==> r.value == Decoded(node, Next(), to) && AllWithin(r.value, Next(), to) && Balanced(after, known, events + r.value)
    {
      var due;
      r, after, known, due := ReadNext(node, to);
      if r.Err? {
        return;
      }
      DueWereRead(due, events, events + r.value);
      var reconciled := ReconcileAt(node, due, after, to);
      if reconciled.Err? {
        PositionsOfDue(node, due, after, toBlock, reconciled.error);
        r := Err(reconciled.error);
      }
    }

    lemma PositionsOfDue(node: NodeReads, due: seq<Owner>, after: map<Owner, int>, toBlock: int, failure: Failure)
      requires Valid() && Readable(node, events, Next(), ChunkTarget(toBlock))
      requires forall o :: o in due ==> o in after && IsDueNext(node, o, toBlock)
                                        && after[o] == Net(events + Decoded(node, Next(), ChunkTarget(toBlock)), o)
      requires Blames(failure, exists o :: o in due && PositionUnanswered(node, o, ChunkTarget(toBlock)),
                      exists o :: o in due && PositionContradicts(node, o, ChunkTarget(toBlock), after[o]))
      ensures Blames(failure, ChunkUnanswered(node, toBlock), ChunkContradicted(node, toBlock))
    {
    }

    lemma DueWereRead(due: seq<Owner>, before: seq<CollateralEvent>, through: seq<CollateralEvent>)
      requires |before| <= |through| && (set o | o in due) == DueOwners(before, through, ChunkOf(fromBlock, Next()))
      ensures forall o :: o in DueOwners(before, through, ChunkOf(fromBlock, Next())) <==> o in due
    {
    }

    /** Commits a chunk whose due owners the market has confirmed. */
    method KeepReconciled(node: NodeReads, to: int, decoded: seq<CollateralEvent>, known: seq<Owner>, after: map<Owner, int>)
      requires Valid() && (truthful ==> Truthful(node, truth))
      requires Next() <= to <= ChunkEnd(fromBlock, ChunkOf(fromBlock, Next())) && AllWithin(decoded, Next(), to)
      requires Balanced(after, known, events + decoded)
      requires Reconciles(node, events, events + decoded, ChunkOf(fromBlock, Next()), to)
      modifies this`events, this`scannedTo, this`owners, this`balances, this`commits
      ensures Valid() && events == old(events) + decoded && scannedTo == to
      ensures |commits| == |old(commits)| + 1 && old(commits) <= commits
      ensures forall o :: o in commits[|commits| - 1].due ==> node.position(o, to) == Ok(Net(events, o))
    {
      var through := events + decoded;
      ghost var c := Commit(Next(), to, through, DueOwners(events, through, ChunkOf(fromBlock, Next())));
      if truthful {
        DueReadsBackCommit(c, events, Next(), fromBlock, truth.held);
      }
      Keep(c, through, known, after, to);
    }

    /**
     * Extends the history to `toBlock`, at most 400 chunks a request. Chunks committed before a
     * failure stay, so a request stopped by the deadline or the cap has made progress. A finished
     * scan was reconciled at `toBlock` itself, unless the history already reached it.
     */
    method ExtendCollateral(node: NodeReads, toBlock: int) returns (r: Result<Option<int>, Failure>)
      requires Valid() && (truthful ==> Truthful(node, truth))
      modifies this`events, this`scannedTo, this`owners, this`balances, this`commits
      ensures Valid() && old(scannedTo) <= scannedTo && old(events) <= events && old(commits) <= commits
      ensures |commits| <= |old(commits)| + MAX_CHUNKS_PER_REQUEST
      ensures |commits| == |old(commits)| ==> events == old(events) && scannedTo == old(scannedTo)
      ensures r == Err(NotReady) ==>
                var chunks := |commits| - |old(commits)|;
                chunks > 0 && Next() <= toBlock && (chunks == MAX_CHUNKS_PER_REQUEST || node.late(chunks))
      ensures r.Err? && r != Err(NotReady) ==> Next() <= toBlock && !NextAccepted(node, toBlock)
      ensures r.Err? ==> Blames(r.error, ChunkUnanswered(node, toBlock), ChunkContradicted(node, toBlock))
      ensures r.Ok? ==> toBlock < Next()
      ensures r.Ok? ==> r.value == if |commits| == |old(commits)| then None else Some(toBlock)
      ensures r.Ok? && r.value.Some? ==> scannedTo == toBlock
    {
      var reconciledAt: Option<int> := None;
      var chunks := 0;
      while Next() <= toBlock
        invariant Valid() && old(scannedTo) <= scannedTo && old(events) <= events && old(commits) <= commits
        invariant |commits| == |old(commits)| + chunks && chunks <= MAX_CHUNKS_PER_REQUEST
        invariant reconciledAt == if chunks == 0 then None else Some(scannedTo)
        invariant chunks == 0 ==> events == old(events) && scannedTo == old(scannedTo)
        invariant chunks > 0 ==> scannedTo <= toBlock
        decreases MAX_CHUNKS_PER_REQUEST - chunks
      {
        if chunks >= MAX_CHUNKS_PER_REQUEST || (chunks > 0 && node.late(chunks)) {
          return Err(NotReady);
        }
        var committed := ExtendChunk(node, toBlock);
        if committed.Err? {
          return Err(committed.error);
        }
        reconciledAt := Some(committed.value);
        chunks := chunks + 1;
      }
      return Ok(reconciledAt);
    }

    // ===== Rate epochs =====

    /** The logs continue the kept epochs' indices without a gap. */
    predicate Contiguous(logs: seq<EpochLog>)
      reads this`epochs
    {
      forall i :: 0 <= i < |logs| ==> logs[i].index == |epochs| + i
    }

    function NextForEpochs(): int
      reads this`epochsScannedTo
    {
      if epochsScannedTo == 0 then deploymentBlock else epochsScannedTo + 1
    }

    /** The chunks of epoch logs kept since the next block was `from`, the last one perhaps cut short. */
    function EpochChunks(from: int): int
      reads this`epochsScannedTo
    {
      (NextForEpochs() - from + BLOCK_CHUNK - 1) / BLOCK_CHUNK
    }

    /** The next chunk of epoch logs up to `toBlock` can be read and taken. */
    predicate NextEpochsAccepted(node: NodeReads, toBlock: int)
      reads this`epochs, this`epochsScannedTo
    {
      var logs := node.epochLogs(NextForEpochs(), Min(NextForEpochs() + BLOCK_CHUNK - 1, toBlock));
      logs.Ok? && Contiguous(logs.value)
    }

    /** A read of the epochs goes unanswered: of their next chunk, or of their count once they are all scanned. */
    predicate EpochsUnanswered(node: NodeReads, toBlock: int)
      reads this`epochs, this`epochsScannedTo
    {
      if NextForEpochs() <= toBlock
      then node.epochLogs(NextForEpochs(), Min(NextForEpochs() + BLOCK_CHUNK - 1, toBlock)) == Err(Unavailable)
      else node.epochCount(epochsScannedTo) == Err(Unavailable)
    }

    /** An answer about the epochs contradicts itself, leaves a gap in them or miscounts them. */
    predicate EpochsContradicted(node: NodeReads, toBlock: int)
      reads this`epochs, this`epochsScannedTo
    {
      if NextForEpochs() <= toBlock then
        var logs := node.epochLogs(NextForEpochs(), Min(NextForEpochs() + BLOCK_CHUNK - 1, toBlock));
        logs == Err(Inconsistent) || (logs.Ok? && !Contiguous(logs.value))
      else
        var count := node.epochCount(epochsScannedTo);
        count == Err(Inconsistent) || (count.Ok? && count.value != |epochs|)
    }

    /** The ledger counts as many epochs as are kept, at the block they are scanned to. */
    predicate Counted(node: NodeReads)
      reads this`epochs, this`epochsScannedTo
    {
      node.epochCount(epochsScannedTo) == Ok(|epochs|)
    }

    /** Takes one chunk's epoch logs, which must continue the history without a gap. */
    method TakeEpochs(logs: seq<EpochLog>) returns (r: Result<seq<RateEpoch>, Failure>)
      requires EpochsValid() && (truthful ==> LedgerEpochs(logs, truth))
      ensures r.Ok? <==> Contiguous(logs)
      ensures r.Ok? ==> |r.value| == |logs| && forall i :: 0 <= i < |logs| ==> r.value[i] == logs[i].epoch
      ensures r.Ok? && truthful ==> OfLedger(epochs + r.value, truth)
      ensures r.Err? ==> r.error == Integrity
    {
      var added: seq<RateEpoch> := [];
      for i := 0 to |logs|
        invariant |added| == i && forall j :: 0 <= j < i ==> logs[j].index == |epochs| + j && added[j] == logs[j].epoch
      {
        if logs[i].index != |epochs| + |added| {
          return Err(Integrity);
        }
        added := added + [logs[i].epoch];
      }
      return Ok(added);
    }

    /** Reads and takes the next chunk of epoch logs: kept if and only if it is accepted. */
    method ExtendEpochChunk(node: NodeReads, toBlock: int) returns (r: Result<(), Failure>)
      requires EpochsValid() && NextForEpochs() <= toBlock && (truthful ==> Truthful(node, truth))
      modifies this`epochs, this`epochsScannedTo
      ensures EpochsValid()
      ensures r.Ok? <==> old(NextEpochsAccepted(node, toBlock))
      ensures r.Err? ==> Blames(r.error, old(EpochsUnanswered(node, toBlock)), old(EpochsContradicted(node, toBlock)))
      ensures r.Ok? ==> old(epochs) <= epochs && epochsScannedTo == Min(old(NextForEpochs()) + BLOCK_CHUNK - 1, toBlock)
      ensures r.Err? ==> r.error != NotReady && epochs == old(epochs) && epochsScannedTo == old(epochsScannedTo)
    {
      var from := NextForEpochs();
      var to := if from + BLOCK_CHUNK - 1 < toBlock then from + BLOCK_CHUNK - 1 else toBlock;
      var logs := node.epochLogs(from, to);
      if logs.Err? {
        return Err(FailureOf(logs.error));
      }
      var added := TakeEpochs(logs.value);
      if added.Err? {
        return Err(added.error);
      }
      epochs, epochsScannedTo := epochs + added.value, to;
      return Ok(());
    }

    /** Counts the kept epochs against the ledger, unless they were already counted where the scan stands. */
    method CountEpochs(node: NodeReads) returns (r: Result<(), Failure>)
      requires EpochsValid() && (truthful ==> Truthful(node, truth))
      modifies this`epochsVerifiedTo
      ensures EpochsValid()
      ensures r.Ok? <==> old(epochsVerifiedTo) == epochsScannedTo || Counted(node)
      ensures r.Err? ==>
                var count := node.epochCount(epochsScannedTo);
                Blames(r.error, count == Err(Unavailable), count == Err(Inconsistent) || (count.Ok? && count.value != |epochs|))
      ensures r.Ok? ==> epochsVerifiedTo == epochsScannedTo
      ensures r.Err? ==> r.error != NotReady && epochsVerifiedTo == old(epochsVerifiedTo)
    {
      if epochsVerifiedTo < epochsScannedTo {
        var count := node.epochCount(epochsScannedTo);
        if count.Err? {
          return Err(FailureOf(count.error));
        }
        if count.value != |epochs| {
          return Err(Integrity);
        }
        epochsVerifiedTo := epochsScannedTo;
      }
      return Ok(());
    }

    /** Scans the rate history to `toBlock` and counts it wherever it now ends, even when nothing new was scanned. */
    method ExtendEpochs(node: NodeReads, toBlock: int) returns (r: Result<(), Failure>)
      requires EpochsValid() && (truthful ==> Truthful(node, truth))
      modifies this`epochs, this`epochsScannedTo, this`epochsVerifiedTo
      ensures EpochsValid() && old(epochs) <= epochs && old(epochsScannedTo) <= epochsScannedTo
      ensures r.Ok? ==> epochsVerifiedTo == epochsScannedTo && toBlock < NextForEpochs()
      ensures r.Ok? && old(epochsVerifiedTo) < epochsScannedTo ==> Counted(node)
      ensures r.Err? ==> NextForEpochs() <= toBlock || epochsVerifiedTo < epochsScannedTo
      ensures EpochChunks(old(NextForEpochs())) <= MAX_CHUNKS_PER_REQUEST
      ensures r == Err(NotReady) ==>
                var chunks := EpochChunks(old(NextForEpochs()));
                chunks > 0 && NextForEpochs() <= toBlock && (chunks == MAX_CHUNKS_PER_REQUEST || node.lateForRates(chunks))
      ensures r.Err? && r != Err(NotReady) ==>
                if NextForEpochs() <= toBlock then !NextEpochsAccepted(node, toBlock) else !Counted(node)
      ensures r.Err? ==> Blames(r.error, EpochsUnanswered(node, toBlock), EpochsContradicted(node, toBlock))
    {
      var chunks := 0;
      while NextForEpochs() <= toBlock
        invariant EpochsValid() && old(epochs) <= epochs && old(epochsScannedTo) <= epochsScannedTo
        invariant epochsVerifiedTo == old(epochsVerifiedTo) && 0 <= chunks <= MAX_CHUNKS_PER_REQUEST
        invariant EpochChunks(old(NextForEpochs())) == chunks
        invariant NextForEpochs() <= toBlock ==> NextForEpochs() == old(NextForEpochs()) + chunks * BLOCK_CHUNK
        decreases Max(toBlock - NextForEpochs() + 1, 0)
      {
        if chunks >= MAX_CHUNKS_PER_REQUEST || (chunks > 0 && node.lateForRates(chunks)) {
          return Err(NotReady);
        }
        var taken := ExtendEpochChunk(node, toBlock);
        if taken.Err? {
          return Err(taken.error);
        }
        chunks := chunks + 1;
      }
      r := CountEpochs(node);
    }

    // ===== Snapshots =====

    lemma LastCommitBacks(block: int)
      requires Valid() && truthful && scannedTo == block && |commits| > 0
      ensures forall o :: Net(events, o) <= truth.held(o, block)
    {
      assert commits[|commits| - 1] in commits;
      assert Linked(commits, |commits| - 1, fromBlock);
    }

    /** The market confirms every known owner's collateral at `block`. */
    predicate AllConfirmed(node: NodeReads, block: int)
      reads this`owners, this`events
    {
      forall o :: o in owners ==> node.position(o, block) == Ok(Net(events, o))
    }

    /** Reads every known owner's position at `block` unless the last chunk was reconciled there. */
    method ReconcileSnapshot(node: NodeReads, reconciledAt: Option<int>, points: map<Owner, OwnerPoints>, block: int)
      returns (r: Result<(), Failure>)
      requires Valid() && (truthful ==> Truthful(node, truth))
      requires points.Keys == OwnersOf(events) && forall o :: o in points ==> points[o].collateral == Net(events, o)
      requires reconciledAt.Some? ==> reconciledAt.value == block == scannedTo && |commits| > 0
      ensures r.Err? ==> r.error != NotReady
      ensures r.Ok? <==> reconciledAt == Some(block) || AllConfirmed(node, block)
      ensures r.Err? ==> Blames(r.error, exists o :: o in owners && PositionUnanswered(node, o, block),
                                exists o :: o in owners && PositionContradicts(node, o, block, Net(events, o)))
      ensures r.Ok? && truthful ==> forall o :: o in points ==> points[o].collateral <= truth.held(o, block)
    {
      if reconciledAt != Some(block) {
        FirstSeenMembers(events);
        var expected: map<Owner, int> := map o | o in points :: points[o].collateral;
        r := ReconcileAt(node, owners, expected, block);
        assert r.Ok? ==> forall o :: o in owners ==> node.position(o, block) == Ok(expected[o]);
      } else {
        r := Ok(());
        if truthful {
          LastCommitBacks(block);
        }
      }
    }

    /** The market and its wiring are verified and both histories stand at `number`, the epochs counted. */
    predicate Reached(node: NodeReads, number: int)
      reads this
    {
      && verified && node.wiring(number).Ok?
      && number < NextForEpochs() && epochsVerifiedTo == epochsScannedTo && number < Next()
    }

    /** The market, while it is not verified, or its wiring answers with this failure. */
    predicate MarketAnswers(node: NodeReads, number: int, f: NodeFailure)
      reads this`verified
    {
      (!verified && node.market(number) == Err(f)) || node.wiring(number) == Err(f)
    }

    /** Verifies the market once in a history's life, and the ledger's wiring every time. */
    method CheckMarket(node: NodeReads, number: int) returns (r: Result<(), Failure>)
      modifies this`verified
      ensures verified == (old(verified) || node.market(number).Ok?)
      ensures r.Ok? <==> verified && node.wiring(number).Ok?
      ensures r.Err? ==> r.error != NotReady
                         && Blames(r.error, MarketAnswers(node, number, Unavailable), MarketAnswers(node, number, Inconsistent))
    {
      if !verified {
        var market := node.market(number);
        if market.Err? {
          return Err(FailureOf(market.error));
        }
        verified := true;
      }
      var wiring := node.wiring(number);
      return if wiring.Err? then Err(FailureOf(wiring.error)) else Ok(());
    }

    predicate RatesUnanswered(node: NodeReads, number: int)
      reads this`verified, this`epochs, this`epochsScannedTo
    {
      MarketAnswers(node, number, Unavailable) || EpochsUnanswered(node, number)
    }

    predicate RatesContradicted(node: NodeReads, number: int)
      reads this`verified, this`epochs, this`epochsScannedTo
    {
      MarketAnswers(node, number, Inconsistent) || EpochsContradicted(node, number)
    }

    /** The checks of the market and the rate history, before its events are read. */
    method PrepareRates(node: NodeReads, number: int) returns (r: Result<(), Failure>)
      requires EpochsValid() && (truthful ==> Truthful(node, truth))
      modifies this`verified, this`epochs, this`epochsScannedTo, this`epochsVerifiedTo
      ensures EpochsValid() && old(epochs) <= epochs
      ensures r.Ok? <==> && verified && node.wiring(number).Ok?
                         && number < NextForEpochs() && epochsVerifiedTo == epochsScannedTo
      ensures r.Ok? ==> old(verified) || node.market(number).Ok?
      ensures r == Err(NotReady) ==> old(epochsScannedTo) < epochsScannedTo
      ensures r.Err? ==> Blames(r.error, RatesUnanswered(node, number), RatesContradicted(node, number))
    {
      r := CheckMarket(node, number);
      if r.Ok? {
        r := ExtendEpochs(node, number);
      }
    }

    ghost predicate ScanUnanswered(node: NodeReads, number: int)
      reads this
    {
      RatesUnanswered(node, number) || (Next() <= number && ChunkUnanswered(node, number))
    }

    ghost predicate ScanContradicted(node: NodeReads, number: int)
      reads this
    {
      RatesContradicted(node, number) || (Next() <= number && ChunkContradicted(node, number))
    }

    /** Verifies the market and wiring, then extends both histories to `number`. */
    method ExtendTo(node: NodeReads, number: int) returns (r: Result<Option<int>, Failure>)
      requires Valid() && EpochsValid() && (truthful ==> Truthful(node, truth))
      modifies this`verified, this`events, this`scannedTo, this`owners, this`balances, this`commits
      modifies this`epochs, this`epochsScannedTo, this`epochsVerifiedTo
      ensures Valid() && EpochsValid()
      ensures old(scannedTo) <= scannedTo && old(events) <= events && old(epochs) <= epochs && old(commits) <= commits
      ensures r.Ok? <==> Reached(node, number)
      ensures r.Ok? ==> (old(verified) || node.market(number).Ok?) && node.wiring(number).Ok?
      ensures r.Ok? ==> r.value == if |commits| == |old(commits)| then None else Some(number)
      ensures r.Ok? && r.value.Some? ==> scannedTo == number
      ensures r == Err(NotReady) ==> |old(commits)| < |commits| || old(epochsScannedTo) < epochsScannedTo
      ensures r.Err? ==> !Reached(node, number)
                         && Blames(r.error, ScanUnanswered(node, number), ScanContradicted(node, number))
    {
      var counted := PrepareRates(node, number);
      if counted.Err? {
        return Err(counted.error);
      }
      r := ExtendCollateral(node, number);
    }

    /** What a snapshot is: the replay of the history, whose collateral is the balances kept chunk by chunk. */
    ghost predicate Replays(s: Snapshot)
      reads this`events, this`epochs, this`balances
    {
      && s.rateEpochs == |epochs| > 0 && Ordered(epochs)
      && WellFormed(events, s.asOfTimestamp) && NoneNegative(events)
      && s.owners == ReplayedPoints(events, epochs, s.asOfTimestamp)
      && (forall o :: o in s.owners <==> o in balances)
      && (forall o :: o in s.owners ==> s.owners[o].collateral == balances[o])
    }

    /** The history replays at `timestamp`, and the market confirms it at `number` if the last chunk did not. */
    predicate Replayable(node: NodeReads, reconciled: bool, number: int, timestamp: int)
      reads this
    {
      |epochs| > 0 && Ordered(epochs) && WellFormed(events, timestamp) && (reconciled || AllConfirmed(node, number))
    }

    ghost predicate SnapshotUnanswered(node: NodeReads, number: int)
      reads this
    {
      exists o :: o in owners && PositionUnanswered(node, o, number)
    }

    /** The history itself does not replay, or the market's answer about an owner contradicts it. */
    ghost predicate SnapshotContradicted(node: NodeReads, number: int, timestamp: int)
      reads this
    {
      || |epochs| == 0 || !Ordered(epochs) || !WellFormed(events, timestamp)
      || exists o :: o in owners && PositionContradicts(node, o, number, Net(events, o))
    }

    /** A read the build asked for where it now stands goes unanswered. */
    ghost predicate Unanswered(node: NodeReads, number: int)
      reads this
    {
      if Reached(node, number) then SnapshotUnanswered(node, number) else ScanUnanswered(node, number)
    }

    /** An answer to what the build asked where it now stands contradicts itself or the history. */
    ghost predicate Contradicted(node: NodeReads, number: int, timestamp: int)
      reads this
    {
      if Reached(node, number) then SnapshotContradicted(node, number, timestamp) else ScanContradicted(node, number)
    }

    /** Replays the history as it stands and reconciles the result at `number`. */
    method Replayed(node: NodeReads, reconciledAt: Option<int>, number: int, timestamp: int) returns (r: Result<Snapshot, Failure>)
      requires Valid() && (truthful ==> Truthful(node, truth))
      requires reconciledAt.Some? ==> reconciledAt.value == number == scannedTo && |commits| > 0
      ensures r.Ok? <==> Replayable(node, reconciledAt == Some(number), number, timestamp)
      ensures r.Err? ==> r.error != NotReady
      ensures r.Err? ==> Blames(r.error, SnapshotUnanswered(node, number), SnapshotContradicted(node, number, timestamp))
      ensures r.Ok? ==> r.value.asOfBlock == number && r.value.asOfTimestamp == timestamp && Replays(r.value)
      ensures r.Ok? && truthful ==>
                forall o :: o in r.value.owners ==> r.value.owners[o].collateral <= truth.held(o, number)
    {
      var replay := ReplayCollateralPoints(events, epochs, timestamp);
      if replay.Err? {
        return Err(Integrity);
      }
      var reconciled := ReconcileSnapshot(node, reconciledAt, replay.value, number);
      if reconciled.Err? {
        return Err(reconciled.error);
      }
      FirstSeenMembers(events);
      r := Ok(Snapshot(number, timestamp, replay.value, |epochs|));
    }

    /**
     * A snapshot at or after the block asked for: the cached one, or the replay of a history scanned
     * to the block, counted and reconciled there. It never credits more collateral than the market
     * holds, and the cached block never goes down. It fails only while the scan has not reached the
     * block, or when what was reached does not replay or is not confirmed.
     */
    method BuildSnapshot(node: NodeReads, number: int, timestamp: int) returns (r: Result<Snapshot, Failure>)
      requires Valid() && EpochsValid() && SnapshotValid() && (truthful ==> Truthful(node, truth))
      modifies this
      ensures Valid() && EpochsValid() && SnapshotValid()
      ensures old(scannedTo) <= scannedTo && old(events) <= events && old(epochs) <= epochs && old(commits) <= commits
      ensures r.Ok? ==> snapshot == Some(r.value) && number <= r.value.asOfBlock
      ensures r.Ok? <==> || (old(snapshot).Some? && number <= old(snapshot).value.asOfBlock)
                         || (Reached(node, number) && Replayable(node, |old(commits)| < |commits|, number, timestamp))
      ensures r.Err? ==> Blames(r.error, Unanswered(node, number), Contradicted(node, number, timestamp))
      ensures r.Err? ==> snapshot == old(snapshot)
      ensures r == Err(NotReady) ==> |old(commits)| < |commits| || old(epochsScannedTo) < epochsScannedTo
      ensures old(snapshot).Some? ==> snapshot.Some? && old(snapshot).value.asOfBlock <= snapshot.value.asOfBlock
      ensures r.Ok? && snapshot != old(snapshot) ==>
                && r.value.asOfBlock == number && r.value.asOfTimestamp == timestamp
                && Replays(r.value) && epochsVerifiedTo == epochsScannedTo
                && (old(verified) || node.market(number).Ok?) && node.wiring(number).Ok?
                && number < Next() && number < NextForEpochs()
    {
      if snapshot.Some? && snapshot.value.asOfBlock >= number {
        return Ok(snapshot.value);
      }
      var reconciledAt := ExtendTo(node, number);
      if reconciledAt.Err? {
        return Err(reconciledAt.error);
      }
      r := Replayed(node, reconciledAt.value, number, timestamp);
      if r.Ok? {
        snapshot := Some(r.value);
      }
    }
  }

  /** The module's own state: the current history, and when one may be made again after a drop. */
  class Server {
    // The chain behind each market, for a node that answers truthfully.
    ghost const truths: string -> Truth
    ghost const truthful: bool
    var history: History?
    var rebuildAfter: int

    ghost predicate Valid()
      reads this, history
    {
      && (forall key, o, b :: truths(key).held(o, b) >= 0)
      && (history != null ==> Keeps(history))
    }

    ghost predicate Keeps(h: History)
      reads h
    {
      h.Valid() && h.EpochsValid() && h.SnapshotValid() && h.truth == truths(h.key) && h.truthful == truthful
    }

    constructor (ghost truths: string -> Truth, ghost truthful: bool)
      requires forall key, o, b :: truths(key).held(o, b) >= 0
      ensures Valid() && history == null && rebuildAfter == 0
      ensures this.truths == truths && this.truthful == truthful
    {
      this.truths, this.truthful := truths, truthful;
      history, rebuildAfter := null, 0;
    }

    /** The current history of this configuration, or a new one once the backoff has passed. */
    method HistoryFor(config: Config, now: int) returns (r: Result<History, Failure>)
      requires Valid() && config.Valid()
      modifies this`history
      ensures Valid()
      ensures r.Ok? <==> (old(history) != null && old(history).key == config.key) || rebuildAfter <= now
      ensures r.Ok? ==> history == r.value && r.value.key == config.key
      ensures r.Ok? && r.value != old(history) ==> fresh(r.value) && r.value.snapshot == None && r.value.events == []
      ensures old(history) != null && old(history).key == config.key ==> r == Ok(old(history))
      ensures r.Err? ==> r.error == NotReady && history == old(history)
    {
      if history != null && history.key == config.key {
        return Ok(history);
      }
      if now < rebuildAfter {
        return Err(NotReady);
      }
      var made := new History(config, truths(config.key), truthful);
      history := made;
      return Ok(made);
    }

    /** Drops a history after an integrity failure, unless a newer one has already replaced it. */
    method DropHistory(h: History, now: int)
      requires Valid()
      modifies this`history, this`rebuildAfter
      ensures Valid()
      ensures if old(history) == h then history == null && rebuildAfter == now + REBUILD_BACKOFF_MS
              else history == old(history) && rebuildAfter == old(rebuildAfter)
    {
      if history != h {
        return;
      }
      history, rebuildAfter := null, now + REBUILD_BACKOFF_MS;
    }

    /**
     * A whole build, started at `now` and over by `later`, on the history `built`. Only an answer that
     * contradicts itself or the history drops it and starts the backoff; reads that go unanswered, the
     * cap and the deadline keep it with all it committed.
     */
    method BuildSnapshot(config: Config, node: NodeReads, number: int, timestamp: int, now: int, later: int)
      returns (r: Result<Snapshot, Failure>, ghost built: History?)
      requires Valid() && config.Valid() && (truthful ==> Truthful(node, truths(config.key)))
      modifies this, history
      ensures Valid()
      ensures r.Ok? ==> history != null && history.snapshot == Some(r.value) && number <= r.value.asOfBlock
      ensures r.Ok? && truthful ==>
                forall o :: o in r.value.owners ==> r.value.owners[o].collateral <= truths(config.key).held(o, r.value.asOfBlock)
      ensures built == null <==> (old(history) == null || old(history).key != config.key) && now < old(rebuildAfter)
      ensures built == null ==> r == Err(NotReady) && history == old(history) && rebuildAfter == old(rebuildAfter)
      ensures built != null && old(history) != null && old(history).key == config.key ==>
                && built == old(history)
                && old(history.events) <= built.events && old(history.epochs) <= built.epochs && old(history.commits) <= built.commits
      ensures r == Err(Integrity) ==> && history == null && rebuildAfter == later + REBUILD_BACKOFF_MS
                                      && built != null && built.Contradicted(node, number, timestamp)
      ensures r == Err(Transport) ==> built != null && built.Unanswered(node, number)
      ensures built != null && r != Err(Integrity) ==> history == built && rebuildAfter == old(rebuildAfter)
      ensures built != null && !built.Contradicted(node, number, timestamp) ==> history == built && rebuildAfter == old(rebuildAfter)
    {
      built := null;
      var current := HistoryFor(config, now);
      if current.Err? {
        return Err(current.error), null;
      }
      var h := current.value;
      built := h;
      r := h.BuildSnapshot(node, number, timestamp);
      if r == Err(Integrity) {
        DropHistory(h, later);
      }
    }
  }
}
