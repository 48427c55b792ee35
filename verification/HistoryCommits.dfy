/**
 * What a market history has committed: chunks that tile the scanned range, ending at every full
 * chunk boundary whatever block a request resumed from, each reconciled with the market before it
 * was kept.
 */
module HistoryCommits {
  import opened Arith
  import opened CollateralReplay

  const BLOCK_CHUNK: int := 9_000
  const ZERO_HELD_GRID_CHUNKS: int := 16

  /** One committed chunk: its blocks, the whole history through it, and the owners it was reconciled for. */
  datatype Commit = Commit(from: int, to: int, events: seq<CollateralEvent>, due: set<Owner>)

  /** The chunk a block belongs to, counted from 1 at the market's first block. */
  function ChunkOf(fromBlock: int, block: int): int {
    (block - fromBlock) / BLOCK_CHUNK + 1
  }

  function ChunkEnd(fromBlock: int, chunk: int): int {
    fromBlock + chunk * BLOCK_CHUNK - 1
  }

  /** Owners in the order the history first saw them. */
  function FirstSeen(events: seq<CollateralEvent>): seq<Owner> {
    if |events| == 0 then []
    else
      var before, last := FirstSeen(events[..|events| - 1]), events[|events| - 1].owner;
      if last in before then before else before + [last]
  }

  /** Owner number `i` has to be read at the end of a chunk: touched by it, held non-zero, or on the chunk's grid phase. */
  predicate IsDue(before: seq<CollateralEvent>, events: seq<CollateralEvent>, chunk: int, i: nat)
    requires |before| <= |events| && i < |FirstSeen(events)|
  {
    var o := FirstSeen(events)[i];
    o in OwnersOf(events[|before|..]) || Net(events, o) != 0 || i % ZERO_HELD_GRID_CHUNKS == chunk % ZERO_HELD_GRID_CHUNKS
  }

  function DueOwners(before: seq<CollateralEvent>, events: seq<CollateralEvent>, chunk: int): set<Owner>
    requires |before| <= |events|
  {
    set i: nat | i < |FirstSeen(events)| && IsDue(before, events, chunk, i) :: FirstSeen(events)[i]
  }

  /** A commit's range starts at `next` and stays within its chunk, and its history continues `before`. */
  predicate Continues(c: Commit, before: seq<CollateralEvent>, next: int, fromBlock: int) {
    && c.from == next && c.from <= c.to <= ChunkEnd(fromBlock, ChunkOf(fromBlock, c.from))
    && before <= c.events
  }

  /** A commit that extends the history `before`, scanned up to but not including `next`. */
  predicate Extends(c: Commit, before: seq<CollateralEvent>, next: int, fromBlock: int) {
    && Continues(c, before, next, fromBlock)
    && (forall j :: |before| <= j < |c.events| ==> c.from <= c.events[j].blockNumber <= c.to)
    && c.due == DueOwners(before, c.events, ChunkOf(fromBlock, c.from))
  }

  function EventsBefore(commits: seq<Commit>, k: nat): seq<CollateralEvent>
    requires k <= |commits|
  {
    if k == 0 then [] else commits[k - 1].events
  }

  function NextBlock(commits: seq<Commit>, k: nat, fromBlock: int): int
    requires k <= |commits|
  {
    if k == 0 then fromBlock else commits[k - 1].to + 1
  }

  predicate Linked(commits: seq<Commit>, k: nat, fromBlock: int)
    requires k < |commits|
  {
    Extends(commits[k], EventsBefore(commits, k), NextBlock(commits, k, fromBlock), fromBlock)
  }

  predicate Chained(commits: seq<Commit>, fromBlock: int) {
    forall k :: 0 <= k < |commits| ==> Linked(commits, k, fromBlock)
  }

  lemma ChainedContinues(commits: seq<Commit>, fromBlock: int, k: nat)
    requires Chained(commits, fromBlock) && k < |commits|
    ensures Continues(commits[k], EventsBefore(commits, k), NextBlock(commits, k, fromBlock), fromBlock)
  {
    assert Linked(commits, k, fromBlock);
  }

  lemma {:induction false} CommitsAscend(commits: seq<Commit>, fromBlock: int, k: nat, m: nat)
    requires Chained(commits, fromBlock) && k <= m < |commits|
    ensures fromBlock <= commits[k].from <= commits[k].to
    ensures commits[k].events <= commits[m].events
    ensures k < m ==> commits[k].to < commits[m].from
    decreases m
  {
    ChainedContinues(commits, fromBlock, k);
    ChainedContinues(commits, fromBlock, m);
    if k < m {
      CommitsAscend(commits, fromBlock, k, m - 1);
      CommitsAscend(commits, fromBlock, m - 1, m - 1);
    } else if k > 0 {
      CommitsAscend(commits, fromBlock, k - 1, k - 1);
    }
  }

  lemma {:induction false} CommitCovering(commits: seq<Commit>, fromBlock: int, n: nat, block: int) returns (k: nat)
    requires Chained(commits, fromBlock) && n <= |commits| && fromBlock <= block < NextBlock(commits, n, fromBlock)
    ensures k < n && commits[k].from <= block <= commits[k].to
  {
    k := n - 1;
    ChainedContinues(commits, fromBlock, k);
    if block < commits[k].from {
      k := CommitCovering(commits, fromBlock, n - 1, block);
    }
  }

  /** Committed chunks tile the scanned range: every block of it lies in exactly one of them. */
  lemma CommitsTile(commits: seq<Commit>, fromBlock: int, block: int)
    requires Chained(commits, fromBlock) && fromBlock <= block < NextBlock(commits, |commits|, fromBlock)
    ensures exists k :: 0 <= k < |commits| && commits[k].from <= block <= commits[k].to
                        && forall m :: 0 <= m < |commits| && commits[m].from <= block <= commits[m].to ==> m == k
  {
    var k := CommitCovering(commits, fromBlock, |commits|, block);
    forall m | 0 <= m < |commits| && commits[m].from <= block <= commits[m].to
      ensures m == k
    {
      if m < k {
        CommitsAscend(commits, fromBlock, m, k);
      } else if k < m {
        CommitsAscend(commits, fromBlock, k, m);
      }
    }
  }

  lemma ChunkBounds(fromBlock: int, from: int, to: int, n: int)
    requires from <= ChunkEnd(fromBlock, n) <= to <= ChunkEnd(fromBlock, ChunkOf(fromBlock, from))
    ensures to == ChunkEnd(fromBlock, n) && ChunkOf(fromBlock, from) == n
  {
  }

  /** Every full-chunk boundary the scan passed was itself a commit point, wherever requests resumed. */
  lemma BoundaryCommitted(commits: seq<Commit>, fromBlock: int, n: int) returns (k: nat)
    requires Chained(commits, fromBlock) && 1 <= n && ChunkEnd(fromBlock, n) < NextBlock(commits, |commits|, fromBlock)
    ensures k < |commits| && commits[k].to == ChunkEnd(fromBlock, n) && ChunkOf(fromBlock, commits[k].from) == n
  {
    k := CommitCovering(commits, fromBlock, |commits|, ChunkEnd(fromBlock, n));
    ChainedContinues(commits, fromBlock, k);
    ChunkBounds(fromBlock, commits[k].from, commits[k].to, n);
  }

  // ===== The grid of owners held at zero =====

  lemma {:induction false} FirstSeenPrefix(events: seq<CollateralEvent>, n: nat)
    requires n <= |events|
    ensures FirstSeen(events[..n]) <= FirstSeen(events)
    decreases |events|
  {
    if n < |events| {
      var front := events[..|events| - 1];
      assert front[..n] == events[..n];
      FirstSeenPrefix(front, n);
    } else {
      assert events[..n] == events;
    }
  }

  /** The chunk of 16 consecutive ones that owner number `i` is checked at. */
  function GridChunk(first: int, i: nat): int {
    first + (i - first) % ZERO_HELD_GRID_CHUNKS
  }

  lemma GridChunkMatches(first: int, i: nat)
    ensures first <= GridChunk(first, i) < first + ZERO_HELD_GRID_CHUNKS
    ensures i % ZERO_HELD_GRID_CHUNKS == GridChunk(first, i) % ZERO_HELD_GRID_CHUNKS
  {
    var k := (i - first) % 16;
    assert i - first == (i - first) / 16 * 16 + k;
    assert i == (first + k) + (i - first) / 16 * 16;
  }

  /**
   * Every owner known when the first of 16 consecutive chunks ended is reconciled at the end of one
   * of them, however many requests it took to scan them.
   */
  lemma GridReachesEveryOwner(commits: seq<Commit>, fromBlock: int, first: int, known: nat, i: nat)
    requires Chained(commits, fromBlock) && 1 <= first
    requires ChunkEnd(fromBlock, first + ZERO_HELD_GRID_CHUNKS - 1) < NextBlock(commits, |commits|, fromBlock)
    requires known < |commits| && commits[known].to <= ChunkEnd(fromBlock, first) && i < |FirstSeen(commits[known].events)|
    ensures exists k :: known <= k < |commits| && commits[k].to == ChunkEnd(fromBlock, GridChunk(first, i))
                        && FirstSeen(commits[known].events)[i] in commits[k].due
    ensures first <= GridChunk(first, i) < first + ZERO_HELD_GRID_CHUNKS
  {
    GridChunkMatches(first, i);
    var n := GridChunk(first, i);
    var k := BoundaryCommitted(commits, fromBlock, n);
    if k < known {
      CommitsAscend(commits, fromBlock, k, known);
      CommitsAscend(commits, fromBlock, known, known);
      assert false;
    }
    CommitsAscend(commits, fromBlock, known, k);
    FirstSeenPrefix(commits[k].events, |commits[known].events|);
    assert commits[k].events[..|commits[known].events|] == commits[known].events;
    assert FirstSeen(commits[k].events)[i] == FirstSeen(commits[known].events)[i];
    assert Linked(commits, k, fromBlock);
    assert IsDue(EventsBefore(commits, k), commits[k].events, n, i);
  }

  // ===== Balances held by the market =====

  /** At the commit no owner is credited with more than the market holds for it, and those read with exactly that. */
  ghost predicate Backed(c: Commit, held: (Owner, int) -> int) {
    && (forall o :: Net(c.events, o) <= held(o, c.to))
    && (forall o :: o in c.due ==> Net(c.events, o) == held(o, c.to))
  }

  lemma {:induction false} FirstSeenMembers(events: seq<CollateralEvent>)
    ensures forall o :: o in FirstSeen(events) <==> o in OwnersOf(events)
    ensures forall i, j :: 0 <= i < j < |FirstSeen(events)| ==> FirstSeen(events)[i] != FirstSeen(events)[j]
    decreases |events|
  {
    if |events| > 0 {
      var front := events[..|events| - 1];
      FirstSeenMembers(front);
      assert events == front + [events[|events| - 1]];
      assert OwnersOf(events) == OwnersOf(front) + {events[|events| - 1].owner};
    }
  }

  /** Reading the due owners is enough: everyone else is held at zero, or unknown. */
  lemma DueReadsBackCommit(c: Commit, before: seq<CollateralEvent>, next: int, fromBlock: int, held: (Owner, int) -> int)
    requires Extends(c, before, next, fromBlock)
    requires forall o, b :: held(o, b) >= 0
    requires forall o :: o in c.due ==> Net(c.events, o) == held(o, c.to)
    ensures Backed(c, held)
  {
    FirstSeenMembers(c.events);
    forall o
      ensures Net(c.events, o) <= held(o, c.to)
    {
      if o !in OwnersOf(c.events) {
        NetOfStranger(c.events, o);
      }
    }
  }

  /**
   * So nobody's balance stays unconfirmed: with backed commits, in any 16 consecutive chunks every
   * known owner's replayed collateral equals what the market holds at the end of one of them.
   */
  lemma GridConfirmsEveryOwner(commits: seq<Commit>, fromBlock: int, first: int, known: nat, o: Owner, held: (Owner, int) -> int)
    requires Chained(commits, fromBlock) && 1 <= first
    requires ChunkEnd(fromBlock, first + ZERO_HELD_GRID_CHUNKS - 1) < NextBlock(commits, |commits|, fromBlock)
    requires known < |commits| && commits[known].to <= ChunkEnd(fromBlock, first) && o in OwnersOf(commits[known].events)
    requires forall c :: c in commits ==> Backed(c, held)
    ensures exists k, n :: 0 <= k < |commits| && first <= n < first + ZERO_HELD_GRID_CHUNKS
                           && commits[k].to == ChunkEnd(fromBlock, n) && Net(commits[k].events, o) == held(o, commits[k].to)
  {
    FirstSeenMembers(commits[known].events);
    var i: nat :| i < |FirstSeen(commits[known].events)| && FirstSeen(commits[known].events)[i] == o;
    GridReachesEveryOwner(commits, fromBlock, first, known, i);
    var k :| known <= k < |commits| && commits[k].to == ChunkEnd(fromBlock, GridChunk(first, i)) && o in commits[k].due;
    assert Backed(commits[k], held);
  }

  /** Whoever a chunk touches, and whoever it leaves holding anything, is read at its end. */
  lemma TouchedAndHeldAreDue(c: Commit, before: seq<CollateralEvent>, next: int, fromBlock: int)
    requires Extends(c, before, next, fromBlock)
    ensures forall j :: |before| <= j < |c.events| ==> c.events[j].owner in c.due
    ensures forall o :: Net(c.events, o) != 0 ==> o in c.due
    ensures c.due <= OwnersOf(c.events)
  {
    FirstSeenMembers(c.events);
    var chunk := ChunkOf(fromBlock, c.from);
    forall o | o in OwnersOf(c.events[|before|..]) || Net(c.events, o) != 0
      ensures o in c.due
    {
      if o !in OwnersOf(c.events) {
        NetOfStranger(c.events, o);
      }
      var i: nat :| i < |FirstSeen(c.events)| && FirstSeen(c.events)[i] == o;
      assert IsDue(before, c.events, chunk, i);
    }
    forall j | |before| <= j < |c.events|
      ensures c.events[j].owner in c.due
    {
      assert c.events[|before|..][j - |before|] == c.events[j];
    }
  }
}
