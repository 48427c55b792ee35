/**
 * The points leaderboard: which bucket each credited wallet falls in, the ranks, and the proof
 * that the discovered wallets account for the ledger's totals.
 */
module Leaderboard {
  import opened Sums
  import opened Sorting
  import opened Wrappers

  // Addresses, already lower-cased, in their order.
  type Wallet = nat

  const RANK_FLOOR: nat := 1_000_000_000_000_000_000

  datatype Venue = Venue(key: nat, address: Wallet)

  datatype Inputs = Inputs(
    onchain: map<Wallet, int>, blocked: set<Wallet>,
    morpho: map<Wallet, int>, pendle: map<Wallet, int>,
    forestRoad: set<Wallet>, venues: seq<Venue>)
  {
    // Credited points are unsigned.
    predicate Valid() {
      && (forall w :: w in onchain ==> 0 <= onchain[w])
      && (forall w :: w in morpho ==> 0 <= morpho[w])
      && (forall w :: w in pendle ==> 0 <= pendle[w])
    }

    function Candidates(): set<Wallet> {
      onchain.Keys + pendle.Keys + morpho.Keys
    }
  }

  datatype Bucket = Nothing | AtVenue(key: nat) | Blocked | Own | BelowFloor | Ranked

  datatype Row = Row(wallet: Wallet, points: int, onchain: int, pendle: int, morpho: int)

  datatype RankedRow = RankedRow(rank: int, row: Row)

  datatype Board = Board(
    ranked: seq<RankedRow>, rankedPoints: int,
    ownWallets: int, ownPoints: int,
    venuePoints: map<nat, int>, venues: seq<int>,
    jurisdictionBlocked: int, belowFloor: int)

  // ===== What the inputs alone say =====

  function Get<K>(m: map<K, int>, k: K): int {
    if k in m then m[k] else 0
  }

  function RowOf(i: Inputs, w: Wallet): Row {
    var onchain, pendle, morpho := Get(i.onchain, w), Get(i.pendle, w), Get(i.morpho, w);
    Row(w, onchain + pendle + morpho, onchain, pendle, morpho)
  }

  /** The venue of an address: a later entry for it replaces an earlier one. */
  function VenueOf(venues: seq<Venue>, w: Wallet): Option<Venue> {
    if |venues| == 0 then None
    else if venues[|venues| - 1].address == w then Some(venues[|venues| - 1])
    else VenueOf(venues[..|venues| - 1], w)
  }

  /** Each wallet falls in exactly one bucket, tested in this order. */
  function BucketOf(i: Inputs, w: Wallet): Bucket {
    var points := RowOf(i, w).points;
    if points == 0 then Nothing
    else if VenueOf(i.venues, w).Some? then AtVenue(VenueOf(i.venues, w).value.key)
    else if w in i.blocked then Blocked
    else if w in i.forestRoad then Own
    else if points < RANK_FLOOR then BelowFloor
    else Ranked
  }

  function Members(i: Inputs, among: set<Wallet>, b: Bucket): set<Wallet> {
    set w | w in among && BucketOf(i, w) == b
  }

  function PointMap(i: Inputs, wallets: set<Wallet>): map<Wallet, int> {
    map w | w in wallets :: RowOf(i, w).points
  }

  ghost function PointsIn(i: Inputs, wallets: set<Wallet>): int {
    SumMap(PointMap(i, wallets))
  }

  function VenueMembers(i: Inputs, among: set<Wallet>): set<Wallet> {
    set w | w in among && BucketOf(i, w).AtVenue?
  }

  /** Ranked wallets with strictly more points. */
  function Above(i: Inputs, points: int): set<Wallet> {
    set w | w in Members(i, i.Candidates(), Ranked) && RowOf(i, w).points > points
  }

  predicate RowBefore(a: Row, b: Row) {
    a.points > b.points || (a.points == b.points && a.wallet <= b.wallet)
  }

  predicate DistinctWallets(rows: seq<Row>) {
    forall a, b :: 0 <= a < b < |rows| ==> rows[a].wallet != rows[b].wallet
  }

  /** The rows of exactly these wallets, each once. */
  predicate RowsOf(i: Inputs, rows: seq<Row>, wallets: set<Wallet>) {
    DistinctWallets(rows) && Truthful(i, rows) && WalletsOf(rows) == wallets
  }

  predicate Truthful(i: Inputs, rows: seq<Row>) {
    forall k :: 0 <= k < |rows| ==> rows[k] == RowOf(i, rows[k].wallet)
  }

  function WalletsOf(rows: seq<Row>): set<Wallet> {
    set k | 0 <= k < |rows| :: rows[k].wallet
  }

  function Rows(ranked: seq<RankedRow>): seq<Row> {
    seq(|ranked|, k requires 0 <= k < |ranked| => ranked[k].row)
  }

  /** What the board of an input is, without saying how it is computed. */
  ghost predicate IsBoard(i: Inputs, b: Board) {
    var all := i.Candidates();
    && RowsOf(i, Rows(b.ranked), Members(i, all, Ranked)) && Sorted(Rows(b.ranked), RowBefore)
    && (forall k :: 0 <= k < |b.ranked| ==> b.ranked[k].rank == RankOf(i, b.ranked[k].row.points))
    && b.rankedPoints == PointsIn(i, Members(i, all, Ranked))
    && b.ownWallets == |Members(i, all, Own)| && b.ownPoints == PointsIn(i, Members(i, all, Own))
    && b.jurisdictionBlocked == |Members(i, all, Blocked)| && b.belowFloor == |Members(i, all, BelowFloor)|
    && VenuesTallied(i, b.venuePoints, all)
    && |b.venues| == |i.venues|
    && (forall k :: 0 <= k < |i.venues| ==> b.venues[k] == PointsIn(i, Members(i, all, AtVenue(i.venues[k].key))))
  }

  // ===== One more wallet =====

  lemma PointsInAdd(i: Inputs, wallets: set<Wallet>, w: Wallet)
    requires w !in wallets
    ensures PointsIn(i, wallets + {w}) == PointsIn(i, wallets) + RowOf(i, w).points
  {
    var before := PointMap(i, wallets);
    assert PointMap(i, wallets + {w}) == before[w := RowOf(i, w).points];
    SumMapUpdate(before, w, RowOf(i, w).points);
  }

  lemma MembersAdd(i: Inputs, done: set<Wallet>, w: Wallet, b: Bucket)
    requires w !in done
    ensures Members(i, done + {w}, b) == if BucketOf(i, w) == b then Members(i, done, b) + {w} else Members(i, done, b)
    ensures PointsIn(i, Members(i, done + {w}, b))
            == PointsIn(i, Members(i, done, b)) + if BucketOf(i, w) == b then RowOf(i, w).points else 0
    ensures |Members(i, done + {w}, b)| == |Members(i, done, b)| + if BucketOf(i, w) == b then 1 else 0
  {
    assert Members(i, done + {w}, b) == if BucketOf(i, w) == b then Members(i, done, b) + {w} else Members(i, done, b);
    if BucketOf(i, w) == b {
      PointsInAdd(i, Members(i, done, b), w);
    }
  }

  // ===== The source's loops =====

  /** The running totals of the candidates loop. */
  datatype Tally = Tally(
    rows: seq<Row>, ownWallets: int, ownPoints: int, venuePoints: map<nat, int>, jurisdictionBlocked: int, belowFloor: int)

  ghost predicate Tallied(i: Inputs, t: Tally, done: set<Wallet>) {
    RowsOf(i, t.rows, Members(i, done, Ranked)) && CountersTallied(i, t, done) && VenuesTallied(i, t.venuePoints, done)
  }

  ghost predicate VenuesTallied(i: Inputs, venuePoints: map<nat, int>, done: set<Wallet>) {
    forall key :: Get(venuePoints, key) == PointsIn(i, Members(i, done, AtVenue(key)))
  }

  /** One candidate's row goes to its bucket. */
  function Placed(t: Tally, row: Row, b: Bucket): Tally {
    match b
    case Nothing => t
    case AtVenue(key) => t.(venuePoints := t.venuePoints[key := Get(t.venuePoints, key) + row.points])
    case Blocked => t.(jurisdictionBlocked := t.jurisdictionBlocked + 1)
    case Own => t.(ownWallets := t.ownWallets + 1, ownPoints := t.ownPoints + row.points)
    case BelowFloor => t.(belowFloor := t.belowFloor + 1)
    case Ranked => t.(rows := t.rows + [row])
  }

  lemma RowsAdd(i: Inputs, rows: seq<Row>, wallets: set<Wallet>, w: Wallet)
    requires RowsOf(i, rows, wallets) && w !in wallets
    ensures RowsOf(i, rows + [RowOf(i, w)], wallets + {w})
  {
    var longer := rows + [RowOf(i, w)];
    assert WalletsOf(longer) == WalletsOf(rows) + {w} by {
      forall x | x in WalletsOf(rows) + {w}
        ensures x in WalletsOf(longer)
      {
        if x == w {
          assert longer[|rows|].wallet == w;
        } else {
          var k :| 0 <= k < |rows| && rows[k].wallet == x;
          assert longer[k].wallet == x;
        }
      }
    }
    forall k | 0 <= k < |rows|
      ensures rows[k].wallet != w
    {
      assert rows[k].wallet in WalletsOf(rows);
    }
  }

  lemma PlacedVenues(i: Inputs, t: Tally, done: set<Wallet>, w: Wallet, b: Bucket)
    requires w !in done && BucketOf(i, w) == b && VenuesTallied(i, t.venuePoints, done)
    ensures VenuesTallied(i, Placed(t, RowOf(i, w), b).venuePoints, done + {w})
  {
    var after := Placed(t, RowOf(i, w), b).venuePoints;
    forall key: nat
      ensures Get(after, key) == PointsIn(i, Members(i, done + {w}, AtVenue(key)))
    {
      MembersAdd(i, done, w, AtVenue(key));
    }
  }

  lemma PlacedRows(i: Inputs, t: Tally, done: set<Wallet>, w: Wallet, b: Bucket)
    requires w !in done && BucketOf(i, w) == b && RowsOf(i, t.rows, Members(i, done, Ranked))
    ensures RowsOf(i, Placed(t, RowOf(i, w), b).rows, Members(i, done + {w}, Ranked))
  {
    MembersAdd(i, done, w, Ranked);
    if b == Ranked {
      RowsAdd(i, t.rows, Members(i, done, Ranked), w);
    }
  }

  /** The counters of the buckets that keep no rows. */
  ghost predicate CountersTallied(i: Inputs, t: Tally, done: set<Wallet>) {
    && t.ownWallets == |Members(i, done, Own)| && t.ownPoints == PointsIn(i, Members(i, done, Own))
    && t.jurisdictionBlocked == |Members(i, done, Blocked)| && t.belowFloor == |Members(i, done, BelowFloor)|
  }

  lemma CounterAdd(i: Inputs, done: set<Wallet>, w: Wallet, b: Bucket)
    requires w !in done
    ensures PointsIn(i, Members(i, done + {w}, b))
            == PointsIn(i, Members(i, done, b)) + if BucketOf(i, w) == b then RowOf(i, w).points else 0
    ensures |Members(i, done + {w}, b)| == |Members(i, done, b)| + if BucketOf(i, w) == b then 1 else 0
  {
    MembersAdd(i, done, w, b);
  }

  lemma PlacedCounters(i: Inputs, t: Tally, done: set<Wallet>, w: Wallet, b: Bucket)
    requires w !in done && BucketOf(i, w) == b && CountersTallied(i, t, done)
    ensures CountersTallied(i, Placed(t, RowOf(i, w), b), done + {w})
  {
    CounterAdd(i, done, w, Own);
    CounterAdd(i, done, w, Blocked);
    CounterAdd(i, done, w, BelowFloor);
  }

  lemma PlaceTallied(i: Inputs, t: Tally, done: set<Wallet>, w: Wallet, b: Bucket)
    requires Tallied(i, t, done) && w !in done && BucketOf(i, w) == b
    ensures Tallied(i, Placed(t, RowOf(i, w), b), done + {w})
  {
    PlacedRows(i, t, done, w, b);
    PlacedCounters(i, t, done, w, b);
    PlacedVenues(i, t, done, w, b);
  }

  function Prefix(order: seq<Wallet>, n: nat): set<Wallet>
    requires n <= |order|
  {
    set k | 0 <= k < n :: order[k]
  }

  /** The candidates, in whatever order the set yields them. */
  predicate Enumerates(order: seq<Wallet>, wallets: set<Wallet>) {
    && (forall a, b :: 0 <= a < b < |order| ==> order[a] != order[b])
    && (set k | 0 <= k < |order| :: order[k]) == wallets
  }

  /** The body of the candidates loop. */
  method Place(i: Inputs, t: Tally, w: Wallet) returns (placed: Tally)
    ensures placed == Placed(t, RowOf(i, w), BucketOf(i, w))
  {
    var row := RowOf(i, w);
    if row.points == 0 {
      return t;
    }
    var venue := VenueOf(i.venues, w);
    if venue.Some? {
      return t.(venuePoints := t.venuePoints[venue.value.key := Get(t.venuePoints, venue.value.key) + row.points]);
    }
    if w in i.blocked {
      return t.(jurisdictionBlocked := t.jurisdictionBlocked + 1);
    }
    if w in i.forestRoad {
      return t.(ownWallets := t.ownWallets + 1, ownPoints := t.ownPoints + row.points);
    }
    if row.points < RANK_FLOOR {
      return t.(belowFloor := t.belowFloor + 1);
    }
    return t.(rows := t.rows + [row]);
  }

  lemma NothingTallied(i: Inputs)
    ensures Tallied(i, Tally([], 0, 0, map[], 0, 0), {})
  {
  }

  lemma PrefixStep(order: seq<Wallet>, wallets: set<Wallet>, n: nat)
    requires Enumerates(order, wallets) && n < |order|
    ensures order[n] !in Prefix(order, n) && Prefix(order, n + 1) == Prefix(order, n) + {order[n]}
  {
  }

  method SortIntoBuckets(i: Inputs, order: seq<Wallet>) returns (t: Tally)
    requires Enumerates(order, i.Candidates())
    ensures Tallied(i, t, i.Candidates())
  {
    t := Tally([], 0, 0, map[], 0, 0);
    NothingTallied(i);
    for n := 0 to |order|
      invariant Tallied(i, t, Prefix(order, n))
    {
      PrefixStep(order, i.Candidates(), n);
      PlaceTallied(i, t, Prefix(order, n), order[n], BucketOf(i, order[n]));
      t := Place(i, t, order[n]);
    }
    assert Prefix(order, |order|) == i.Candidates();
  }

  // ===== Ranks =====

  lemma RowBeforeIsOrder()
    ensures TotalOrder(RowBefore)
  {
  }

  lemma {:induction false} DistinctCount(rows: seq<Row>)
    requires DistinctWallets(rows)
    ensures |WalletsOf(rows)| == |rows|
  {
    if |rows| > 0 {
      var n := |rows| - 1;
      DistinctCount(rows[..n]);
      assert WalletsOf(rows) == WalletsOf(rows[..n]) + {rows[n].wallet};
    }
  }

  /** In rank order, the wallets strictly above a first-of-its-total row are exactly the rows before it. */
  lemma AboveIsPrefix(i: Inputs, rows: seq<Row>, k: nat)
    requires RowsOf(i, rows, Members(i, i.Candidates(), Ranked)) && Sorted(rows, RowBefore)
    requires k < |rows| && (k > 0 ==> rows[k - 1].points != rows[k].points)
    ensures |Above(i, rows[k].points)| == k
  {
    var front := rows[..k];
    DistinctCount(front);
    forall w | w in Above(i, rows[k].points)
      ensures w in WalletsOf(front)
    {
      var m :| 0 <= m < |rows| && rows[m].wallet == w;
      assert m > k ==> RowBefore(rows[k], rows[m]);
      assert front[m].wallet == w;
    }
    forall w | w in WalletsOf(front)
      ensures w in Above(i, rows[k].points)
    {
      var m :| 0 <= m < k && front[m].wallet == w;
      assert rows[m] == RowOf(i, w);
      assert RowBefore(rows[m], rows[k]);
      if m < k - 1 {
        assert RowBefore(rows[m], rows[k - 1]);
      }
      assert RowBefore(rows[k - 1], rows[k]);
    }
    assert Above(i, rows[k].points) == WalletsOf(front);
  }

  /** One more than the number of ranked wallets with strictly more points. */
  function RankOf(i: Inputs, points: int): int {
    1 + |Above(i, points)|
  }

  /** The points of the first `n` rows. */
  function RowPoints(rows: seq<Row>, n: nat): int
    requires n <= |rows|
  {
    if n == 0 then 0 else RowPoints(rows, n - 1) + rows[n - 1].points
  }

  function FirstWallets(rows: seq<Row>, n: nat): set<Wallet>
    requires n <= |rows|
  {
    set k | 0 <= k < n :: rows[k].wallet
  }

  lemma FirstWalletsStep(i: Inputs, rows: seq<Row>, n: nat)
    requires 0 < n <= |rows| && DistinctWallets(rows)
    ensures PointsIn(i, FirstWallets(rows, n)) == PointsIn(i, FirstWallets(rows, n - 1)) + RowOf(i, rows[n - 1].wallet).points
  {
    var before, w := FirstWallets(rows, n - 1), rows[n - 1].wallet;
    assert w !in before;
    PointsInAdd(i, before, w);
    assert FirstWallets(rows, n) == before + {w};
  }

  lemma NoPoints(i: Inputs)
    ensures PointsIn(i, {}) == 0
  {
  }

  /** Rows whose points are their wallets' add up to the points of those wallets. */
  lemma {:induction false} RowPointsSum(i: Inputs, rows: seq<Row>, n: nat)
    requires n <= |rows| && DistinctWallets(rows)
    requires forall k :: 0 <= k < |rows| ==> rows[k].points == RowOf(i, rows[k].wallet).points
    ensures RowPoints(rows, n) == PointsIn(i, FirstWallets(rows, n))
  {
    if n == 0 {
      NoPoints(i);
      assert FirstWallets(rows, 0) == {};
    } else {
      RowPointsSum(i, rows, n - 1);
      FirstWalletsStep(i, rows, n);
    }
  }

  /** Equal totals share a rank; otherwise the rank is the place. */
  lemma PlaceIsRank(i: Inputs, rows: seq<Row>, k: nat, rank: int)
    requires RowsOf(i, rows, Members(i, i.Candidates(), Ranked)) && Sorted(rows, RowBefore) && k < |rows|
    requires if k > 0 && rows[k - 1].points == rows[k].points then rank == RankOf(i, rows[k - 1].points) else rank == k + 1
    ensures rank == RankOf(i, rows[k].points)
  {
    if k == 0 || rows[k - 1].points != rows[k].points {
      AboveIsPrefix(i, rows, k);
    }
  }

  method AssignRanks(i: Inputs, rows: seq<Row>) returns (ranked: seq<RankedRow>, rankedPoints: int)
    requires RowsOf(i, rows, Members(i, i.Candidates(), Ranked)) && Sorted(rows, RowBefore)
    ensures Rows(ranked) == rows
    ensures forall k :: 0 <= k < |ranked| ==> ranked[k].rank == RankOf(i, ranked[k].row.points)
    ensures rankedPoints == RowPoints(rows, |rows|)
  {
    ranked, rankedPoints := [], 0;
    for k := 0 to |rows|
      invariant |ranked| == k && rankedPoints == RowPoints(rows, k)
      invariant forall m :: 0 <= m < k ==> ranked[m].row == rows[m]
      invariant forall m :: 0 <= m < k ==> ranked[m].rank == RankOf(i, ranked[m].row.points)
    {
      var rank := if k > 0 && rows[k - 1].points == rows[k].points then ranked[k - 1].rank else k + 1;
      PlaceIsRank(i, rows, k, rank);
      rankedPoints := rankedPoints + rows[k].points;
      ranked := ranked + [RankedRow(rank, rows[k])];
    }
  }

  /** Rearranging the rows keeps them the rows of the same wallets. */
  lemma RowsRearranged(i: Inputs, rows: seq<Row>, sorted: seq<Row>, wallets: set<Wallet>)
    requires RowsOf(i, rows, wallets) && multiset(sorted) == multiset(rows)
    ensures RowsOf(i, sorted, wallets)
  {
    forall k | 0 <= k < |sorted|
      ensures sorted[k] == RowOf(i, sorted[k].wallet) && sorted[k].wallet in wallets
    {
      assert sorted[k] in multiset(sorted);
      assert sorted[k] in rows;
    }
    forall w | w in wallets
      ensures w in WalletsOf(sorted)
    {
      var k :| 0 <= k < |rows| && rows[k].wallet == w;
      assert rows[k] in multiset(sorted);
      assert rows[k] in sorted;
    }
    assert WalletsOf(sorted) == wallets;
    forall a, b | 0 <= a < b < |sorted|
      ensures sorted[a].wallet != sorted[b].wallet
    {
      if sorted[a].wallet == sorted[b].wallet {
        assert sorted[a] == sorted[b];
        TwiceInMultiset(sorted, a, b);
        OnceInRows(rows, sorted[a]);
      }
    }
  }

  lemma TwiceInMultiset(rows: seq<Row>, a: nat, b: nat)
    requires a < b < |rows| && rows[a] == rows[b]
    ensures multiset(rows)[rows[a]] >= 2
  {
    assert rows == rows[..b] + [rows[b]] + rows[b + 1..];
    assert rows[a] in rows[..b];
    assert rows[a] in multiset(rows[..b]);
  }

  lemma {:induction false} OnceInRows(rows: seq<Row>, row: Row)
    requires DistinctWallets(rows)
    ensures multiset(rows)[row] <= 1
  {
    if |rows| > 0 {
      var n := |rows| - 1;
      OnceInRows(rows[..n], row);
      assert rows == rows[..n] + [rows[n]];
      assert row in multiset(rows[..n]) <==> row in rows[..n];
    }
  }

  /** The board, whatever order the candidates come in. */
  method RankLeaderboard(i: Inputs, order: seq<Wallet>) returns (b: Board)
    requires Enumerates(order, i.Candidates())
    ensures IsBoard(i, b)
  {
    var t := SortIntoBuckets(i, order);
    RowBeforeIsOrder();
    SortByIsSort(t.rows, RowBefore);
    var sorted := SortBy(t.rows, RowBefore);
    RowsRearranged(i, t.rows, sorted, Members(i, i.Candidates(), Ranked));
    var ranked, rankedPoints := AssignRanks(i, sorted);
    RowPointsSum(i, sorted, |sorted|);
    assert FirstWallets(sorted, |sorted|) == WalletsOf(sorted);
    var venues := seq(|i.venues|, k requires 0 <= k < |i.venues| => Get(t.venuePoints, i.venues[k].key));
    b := Board(ranked, rankedPoints, t.ownWallets, t.ownPoints, t.venuePoints, venues, t.jurisdictionBlocked, t.belowFloor);
  }

  // ===== One board per input =====

  lemma {:induction false} SameWalletsSameRows(i: Inputs, s: seq<Row>, t: seq<Row>, wallets: set<Wallet>)
    requires RowsOf(i, s, wallets) && RowsOf(i, t, wallets)
    ensures multiset(s) == multiset(t)
  {
    forall row: Row
      ensures multiset(s)[row] == multiset(t)[row]
    {
      OnceInRows(s, row);
      OnceInRows(t, row);
      RowPresent(i, s, wallets, row);
      RowPresent(i, t, wallets, row);
    }
  }

  lemma RowPresent(i: Inputs, rows: seq<Row>, wallets: set<Wallet>, row: Row)
    requires RowsOf(i, rows, wallets)
    ensures row in multiset(rows) <==> row.wallet in wallets && row == RowOf(i, row.wallet)
  {
  }

  /** Two boards of one input agree on every rank and every total: the order the candidates came in cannot show. */
  lemma BoardIndependentOfOrder(i: Inputs, a: Board, b: Board)
    requires IsBoard(i, a) && IsBoard(i, b)
    ensures a.ranked == b.ranked && a.venues == b.venues && a == b.(venuePoints := a.venuePoints)
    ensures forall key :: Get(a.venuePoints, key) == Get(b.venuePoints, key)
  {
    var all := i.Candidates();
    SameWalletsSameRows(i, Rows(a.ranked), Rows(b.ranked), Members(i, all, Ranked));
    NoTies(i, Rows(a.ranked));
    SortedUnique(Rows(a.ranked), Rows(b.ranked), RowBefore);
    SameRanks(i, a.ranked, b.ranked);
    assert a.venues == b.venues;
  }

  lemma NoTies(i: Inputs, rows: seq<Row>)
    requires Truthful(i, rows)
    ensures Untied(rows, RowBefore)
  {
  }

  lemma SameRanks(i: Inputs, a: seq<RankedRow>, b: seq<RankedRow>)
    requires Rows(a) == Rows(b)
    requires forall k :: 0 <= k < |a| ==> a[k].rank == RankOf(i, a[k].row.points)
    requires forall k :: 0 <= k < |b| ==> b[k].rank == RankOf(i, b[k].row.points)
    ensures a == b
  {
    assert |a| == |Rows(a)| == |b|;
    forall k | 0 <= k < |a|
      ensures a[k] == b[k]
    {
      assert Rows(a)[k] == a[k].row && Rows(b)[k] == b[k].row;
    }
  }

  // ===== Nothing is lost =====

  /** Every point credited anywhere is in exactly one bucket. */
  lemma {:induction false} BucketsPartition(i: Inputs, wallets: set<Wallet>)
    ensures PointsIn(i, wallets)
            == PointsIn(i, Members(i, wallets, Ranked)) + PointsIn(i, Members(i, wallets, Own))
               + PointsIn(i, Members(i, wallets, Blocked)) + PointsIn(i, Members(i, wallets, BelowFloor))
               + PointsIn(i, VenueMembers(i, wallets))
    decreases |wallets|
  {
    if wallets == {} {
      assert forall b :: Members(i, {}, b) == {};
      assert VenueMembers(i, {}) == {} && PointMap(i, {}) == map[];
    } else {
      var w :| w in wallets;
      var rest := wallets - {w};
      BucketsPartition(i, rest);
      assert wallets == rest + {w};
      PointsInAdd(i, rest, w);
      CounterAdd(i, rest, w, Ranked);
      CounterAdd(i, rest, w, Own);
      CounterAdd(i, rest, w, Blocked);
      CounterAdd(i, rest, w, BelowFloor);
      VenueMembersAdd(i, rest, w);
    }
  }

  lemma VenueMembersAdd(i: Inputs, done: set<Wallet>, w: Wallet)
    requires w !in done
    ensures PointsIn(i, VenueMembers(i, done + {w}))
            == PointsIn(i, VenueMembers(i, done)) + if BucketOf(i, w).AtVenue? then RowOf(i, w).points else 0
  {
    if BucketOf(i, w).AtVenue? {
      assert VenueMembers(i, done + {w}) == VenueMembers(i, done) + {w};
      PointsInAdd(i, VenueMembers(i, done), w);
    } else {
      assert VenueMembers(i, done + {w}) == VenueMembers(i, done);
    }
  }

  /** Points by wallet add up to the three inputs' own totals. */
  lemma {:induction false} CreditsAddUp(onchain: map<Wallet, int>, pendle: map<Wallet, int>, morpho: map<Wallet, int>,
                                        wallets: set<Wallet>, points: map<Wallet, int>)
    requires onchain.Keys <= wallets && pendle.Keys <= wallets && morpho.Keys <= wallets
    requires points.Keys == wallets && forall w :: w in wallets ==> points[w] == Get(onchain, w) + Get(pendle, w) + Get(morpho, w)
    ensures SumMap(points) == SumMap(onchain) + SumMap(pendle) + SumMap(morpho)
    decreases |wallets|
  {
    if wallets == {} {
      assert onchain == map[] && pendle == map[] && morpho == map[] && points == map[];
    } else {
      var w :| w in wallets;
      CreditsAddUp(onchain - {w}, pendle - {w}, morpho - {w}, wallets - {w}, points - {w});
      SumMapRemove(points, w);
      TakeOut(onchain, w);
      TakeOut(pendle, w);
      TakeOut(morpho, w);
    }
  }

  lemma TakeOut(m: map<Wallet, int>, w: Wallet)
    ensures SumMap(m) == Get(m, w) + SumMap(m - {w})
  {
    if w in m {
      SumMapRemove(m, w);
    } else {
      assert m - {w} == m;
    }
  }

  lemma AllCredits(i: Inputs)
    ensures PointsIn(i, i.Candidates()) == SumMap(i.onchain) + SumMap(i.pendle) + SumMap(i.morpho)
  {
    CreditsAddUp(i.onchain, i.pendle, i.morpho, i.Candidates(), PointMap(i, i.Candidates()));
  }

  /**
   * Conservation: the ranked, own, venue, blocked and below-floor wallets' points add up to everything
   * the three sources credit.
   */
  lemma EveryPointCounted(i: Inputs, b: Board)
    requires IsBoard(i, b)
    ensures var all := i.Candidates();
            b.rankedPoints + b.ownPoints + PointsIn(i, VenueMembers(i, all))
            + PointsIn(i, Members(i, all, Blocked)) + PointsIn(i, Members(i, all, BelowFloor))
            == SumMap(i.onchain) + SumMap(i.pendle) + SumMap(i.morpho)
  {
    BucketsPartition(i, i.Candidates());
    AllCredits(i);
  }

  function SumSeq(s: seq<int>): int {
    if |s| == 0 then 0 else SumSeq(s[..|s| - 1]) + s[|s| - 1]
  }

  /** Wallets at one of the first `n` venues. */
  function AtFirstVenues(i: Inputs, n: nat): set<Wallet>
    requires n <= |i.venues|
  {
    set w | w in i.Candidates() && exists k :: 0 <= k < n && BucketOf(i, w) == AtVenue(i.venues[k].key)
  }

  lemma PointsInUnion(i: Inputs, a: set<Wallet>, b: set<Wallet>)
    requires a !! b
    ensures PointsIn(i, a + b) == PointsIn(i, a) + PointsIn(i, b)
  {
    SumMapSplit(PointMap(i, a + b), a);
    assert Within(PointMap(i, a + b), a) == PointMap(i, a);
    assert PointMap(i, a + b) - a == PointMap(i, b);
  }

  lemma {:induction false} VenueIsListed(venues: seq<Venue>, w: Wallet)
    ensures VenueOf(venues, w).Some? ==> VenueOf(venues, w).value in venues
  {
    if |venues| > 0 && venues[|venues| - 1].address != w {
      VenueIsListed(venues[..|venues| - 1], w);
    }
  }

  /** An earlier venue has the same key. */
  predicate Repeats(venues: seq<Venue>, n: nat)
    requires n < |venues|
  {
    exists k :: 0 <= k < n && venues[k].key == venues[n].key
  }

  /** What the first `n` lines print a second time. */
  function RepeatedPoints(venues: seq<Venue>, lines: seq<int>, n: nat): int
    requires n <= |lines| == |venues|
  {
    if n == 0 then 0
    else RepeatedPoints(venues, lines, n - 1) + if Repeats(venues, n - 1) then lines[n - 1] else 0
  }

  lemma OneMoreVenue(i: Inputs, n: nat)
    requires n < |i.venues|
    ensures var before, here := AtFirstVenues(i, n), Members(i, i.Candidates(), AtVenue(i.venues[n].key));
            && AtFirstVenues(i, n + 1) == before + here
            && (if Repeats(i.venues, n) then here <= before else before !! here)
  {
    if Repeats(i.venues, n) {
      var k :| 0 <= k < n && i.venues[k].key == i.venues[n].key;
    }
  }

  lemma OneMoreLine(i: Inputs, n: nat)
    requires n < |i.venues|
    ensures PointsIn(i, AtFirstVenues(i, n + 1))
            == PointsIn(i, AtFirstVenues(i, n))
               + if Repeats(i.venues, n) then 0 else PointsIn(i, Members(i, i.Candidates(), AtVenue(i.venues[n].key)))
  {
    OneMoreVenue(i, n);
    var before, here := AtFirstVenues(i, n), Members(i, i.Candidates(), AtVenue(i.venues[n].key));
    if Repeats(i.venues, n) {
      assert before + here == before;
    } else {
      PointsInUnion(i, before, here);
    }
  }

  lemma {:induction false} FirstVenuesAddUp(i: Inputs, lines: seq<int>, n: nat)
    requires n <= |lines| == |i.venues|
    requires forall k :: 0 <= k < n ==> lines[k] == PointsIn(i, Members(i, i.Candidates(), AtVenue(i.venues[k].key)))
    ensures SumSeq(lines[..n]) == PointsIn(i, AtFirstVenues(i, n)) + RepeatedPoints(i.venues, lines, n)
  {
    if n == 0 {
      NoPoints(i);
      assert AtFirstVenues(i, 0) == {};
    } else {
      FirstVenuesAddUp(i, lines, n - 1);
      OneMoreLine(i, n - 1);
      assert lines[..n][..n - 1] == lines[..n - 1];
    }
  }

  lemma {:induction false} NothingRepeated(venues: seq<Venue>, lines: seq<int>, n: nat)
    requires n <= |lines| == |venues| && forall k :: 0 <= k < |lines| ==> 0 <= lines[k]
    ensures 0 <= RepeatedPoints(venues, lines, n)
    ensures RepeatedPoints(venues, lines, n) == 0 <==> forall k :: 0 <= k < n && Repeats(venues, k) ==> lines[k] == 0
  {
    if n > 0 {
      NothingRepeated(venues, lines, n - 1);
    }
  }

  lemma PointsNotNegative(i: Inputs, wallets: set<Wallet>)
    requires i.Valid()
    ensures 0 <= PointsIn(i, wallets)
  {
    SumMapBounds(PointMap(i, wallets));
  }

  lemma AllVenues(i: Inputs)
    ensures AtFirstVenues(i, |i.venues|) == VenueMembers(i, i.Candidates())
  {
    forall w | w in VenueMembers(i, i.Candidates())
      ensures w in AtFirstVenues(i, |i.venues|)
    {
      VenueIsListed(i.venues, w);
    }
  }

  /**
   * The published venue lines add up to the points held at venues if and only if no key is listed
   * again with points at it; whatever the list, the excess is what the later lines repeat.
   */
  lemma VenueLinesAddUp(i: Inputs, b: Board)
    requires i.Valid() && IsBoard(i, b)
    ensures SumSeq(b.venues) == PointsIn(i, VenueMembers(i, i.Candidates())) + RepeatedPoints(i.venues, b.venues, |b.venues|)
    ensures SumSeq(b.venues) == PointsIn(i, VenueMembers(i, i.Candidates()))
            <==> forall n :: 0 <= n < |b.venues| && Repeats(i.venues, n) ==> b.venues[n] == 0
  {
    FirstVenuesAddUp(i, b.venues, |i.venues|);
    assert b.venues[..|i.venues|] == b.venues;
    AllVenues(i);
    forall k | 0 <= k < |b.venues|
      ensures 0 <= b.venues[k]
    {
      PointsNotNegative(i, Members(i, i.Candidates(), AtVenue(i.venues[k].key)));
    }
    NothingRepeated(i.venues, b.venues, |b.venues|);
  }

  // ===== The discovery is complete =====

  const CURATOR_CLASSES: nat := 5

  /** What the ledger tracks: each wallet's shares and USDfr, and each curator's first loss in each class. */
  datatype Ledger = Ledger(shares: map<Wallet, int>, usdfr: map<Wallet, int>, firstLoss: map<(Wallet, nat), int>) {
    // Tracked amounts are unsigned.
    predicate Valid() {
      && (forall w :: w in shares ==> 0 <= shares[w])
      && (forall w :: w in usdfr ==> 0 <= usdfr[w])
      && (forall k :: k in firstLoss ==> 0 <= firstLoss[k])
    }
  }

  datatype Totals = Totals(shares: int, usdfr: int, curator: int)

  ghost function TotalsOf(ledger: Ledger): Totals {
    Totals(SumMap(ledger.shares), SumMap(ledger.usdfr), SumMap(ledger.firstLoss))
  }

  function ReadCells(curators: set<Wallet>): set<(Wallet, nat)> {
    set c, k: nat | c in curators && 1 <= k <= CURATOR_CLASSES :: (c, k)
  }

  /** Nothing the ledger tracks belongs to a wallet, a curator or a class that was not read. */
  predicate NobodyMissed(ledger: Ledger, wallets: set<Wallet>, curators: set<Wallet>) {
    && (forall w :: w in ledger.shares && w !in wallets ==> ledger.shares[w] == 0)
    && (forall w :: w in ledger.usdfr && w !in wallets ==> ledger.usdfr[w] == 0)
    && (forall k :: k in ledger.firstLoss && !(k.0 in curators && 1 <= k.1 <= CURATOR_CLASSES) ==> ledger.firstLoss[k] == 0)
  }

  predicate Distinct(s: seq<Wallet>) {
    forall a, b :: 0 <= a < b < |s| ==> s[a] != s[b]
  }

  function Elements(s: seq<Wallet>): set<Wallet> {
    set w | w in s
  }

  lemma OneMoreElement(s: seq<Wallet>, n: nat)
    requires Distinct(s) && n < |s|
    ensures s[n] !in Elements(s[..n]) && Elements(s[..n + 1]) == Elements(s[..n]) + {s[n]}
  {
    assert s[..n + 1] == s[..n] + [s[n]];
  }

  lemma TotalExact<K>(tracked: map<K, int>, found: set<K>)
    requires forall k :: k in tracked ==> 0 <= tracked[k]
    ensures SumMap(Within(tracked, found)) == SumMap(tracked)
            <==> forall k :: k in tracked && k !in found ==> tracked[k] == 0
  {
    SumMapSplit(tracked, found);
    var missed := tracked - found;
    SumMapBounds(missed);
    if forall k :: k in tracked && k !in found ==> tracked[k] == 0 {
      SumOfZeros(missed);
    } else {
      var k :| k in tracked && k !in found && tracked[k] != 0;
      assert k in missed && missed[k] == tracked[k];
    }
  }

  lemma {:induction false} SumOfZeros<K>(m: map<K, int>)
    requires forall w :: w in m ==> m[w] == 0
    ensures SumMap(m) == 0
    decreases |m|
  {
    if m != map[] {
      var w :| w in m && SumMap(m) == m[w] + SumMap(m - {w});
      SumOfZeros(m - {w});
    }
  }

  /** Adding up the reads of distinct keys gives the sum over those keys. */
  lemma OneMoreRead<K>(m: map<K, int>, done: set<K>, k: K)
    requires k !in done
    ensures SumMap(Within(m, done + {k})) == SumMap(Within(m, done)) + Get(m, k)
  {
    if k in m {
      assert Within(m, done + {k}) == Within(m, done)[k := m[k]];
      SumMapUpdate(Within(m, done), k, m[k]);
    } else {
      assert Within(m, done + {k}) == Within(m, done);
    }
  }

  lemma NothingRead<K>(m: map<K, int>)
    ensures SumMap(Within(m, {})) == 0
  {
    assert Within(m, {}) == map[];
  }

  /** The tracked shares and USDfr of the discovered wallets, one read each. */
  method SumWallets(ledger: Ledger, wallets: seq<Wallet>) returns (shares: int, usdfr: int)
    requires Distinct(wallets)
    ensures shares == SumMap(Within(ledger.shares, Elements(wallets))) && usdfr == SumMap(Within(ledger.usdfr, Elements(wallets)))
  {
    shares, usdfr := 0, 0;
    NothingRead(ledger.shares);
    NothingRead(ledger.usdfr);
    assert Elements(wallets[..0]) == {};
    for n := 0 to |wallets|
      invariant shares == SumMap(Within(ledger.shares, Elements(wallets[..n])))
      invariant usdfr == SumMap(Within(ledger.usdfr, Elements(wallets[..n])))
    {
      OneMoreElement(wallets, n);
      OneMoreRead(ledger.shares, Elements(wallets[..n]), wallets[n]);
      OneMoreRead(ledger.usdfr, Elements(wallets[..n]), wallets[n]);
      shares := shares + Get(ledger.shares, wallets[n]);
      usdfr := usdfr + Get(ledger.usdfr, wallets[n]);
    }
    assert wallets[..|wallets|] == wallets;
  }

  /** One curator's first loss over the classes. */
  method SumClasses(ledger: Ledger, curator: Wallet, ghost done: set<(Wallet, nat)>) returns (sum: int)
    requires forall k: nat :: (curator, k) !in done
    ensures SumMap(Within(ledger.firstLoss, done + ReadCells({curator}))) == SumMap(Within(ledger.firstLoss, done)) + sum
  {
    sum := 0;
    ghost var cells: set<(Wallet, nat)> := {};
    assert done + cells == done;
    for k: nat := 1 to CURATOR_CLASSES + 1
      invariant cells == set j: nat | 1 <= j < k :: (curator, j)
      invariant SumMap(Within(ledger.firstLoss, done + cells)) == SumMap(Within(ledger.firstLoss, done)) + sum
    {
      ghost var cell: (Wallet, nat) := (curator, k);
      OneMoreRead(ledger.firstLoss, done + cells, cell);
      assert done + cells + {cell} == done + (cells + {cell});
      sum := sum + Get(ledger.firstLoss, (curator, k));
      cells := cells + {cell};
    }
    assert cells == ReadCells({curator});
  }

  method SumCurators(ledger: Ledger, curators: seq<Wallet>) returns (sum: int)
    requires Distinct(curators)
    ensures sum == SumMap(Within(ledger.firstLoss, ReadCells(Elements(curators))))
  {
    sum := 0;
    NothingRead(ledger.firstLoss);
    assert ReadCells(Elements(curators[..0])) == {};
    for n := 0 to |curators|
      invariant sum == SumMap(Within(ledger.firstLoss, ReadCells(Elements(curators[..n]))))
    {
      OneMoreElement(curators, n);
      var classes := SumClasses(ledger, curators[n], ReadCells(Elements(curators[..n])));
      assert ReadCells(Elements(curators[..n + 1])) == ReadCells(Elements(curators[..n])) + ReadCells({curators[n]});
      sum := sum + classes;
    }
    assert curators[..|curators|] == curators;
  }

  /**
   * The totals proof: against the ledger's own totals the check passes if and only if no wallet, no
   * curator and no class left unread tracks anything.
   */
  method AccountsForTotals(ledger: Ledger, totals: Totals, wallets: seq<Wallet>, curators: seq<Wallet>) returns (ok: bool)
    requires Distinct(wallets) && Distinct(curators)
    ensures ok <==> && totals.shares == SumMap(Within(ledger.shares, Elements(wallets)))
                    && totals.usdfr == SumMap(Within(ledger.usdfr, Elements(wallets)))
                    && totals.curator == SumMap(Within(ledger.firstLoss, ReadCells(Elements(curators))))
    ensures ledger.Valid() && totals == TotalsOf(ledger) ==>
              (ok <==> NobodyMissed(ledger, Elements(wallets), Elements(curators)))
  {
    var shares, usdfr := SumWallets(ledger, wallets);
    var curator := SumCurators(ledger, curators);
    ok := shares == totals.shares && usdfr == totals.usdfr && curator == totals.curator;
    if ledger.Valid() && totals == TotalsOf(ledger) {
      TotalsProveDiscovery(ledger, Elements(wallets), Elements(curators));
    }
  }

  /** The three totals match those of what was read exactly when nothing was missed. */
  lemma TotalsProveDiscovery(ledger: Ledger, wallets: set<Wallet>, curators: set<Wallet>)
    requires ledger.Valid()
    ensures TotalsOf(ledger) == Totals(SumMap(Within(ledger.shares, wallets)), SumMap(Within(ledger.usdfr, wallets)),
                                       SumMap(Within(ledger.firstLoss, ReadCells(curators))))
            <==> NobodyMissed(ledger, wallets, curators)
  {
    TotalExact(ledger.shares, wallets);
    TotalExact(ledger.usdfr, wallets);
    TotalExact(ledger.firstLoss, ReadCells(curators));
  }
}
