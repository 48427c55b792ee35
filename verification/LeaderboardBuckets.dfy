/** What a published board says of each wallet, in terms of the inputs alone. */
module LeaderboardBuckets {
  import opened Leaderboard
  import opened Sorting
  import opened Sums
  import opened Wrappers

  /** Everything credited to a wallet, from the three sources. */
  function Credit(i: Inputs, w: Wallet): int {
    (if w in i.onchain then i.onchain[w] else 0)
    + (if w in i.pendle then i.pendle[w] else 0)
    + (if w in i.morpho then i.morpho[w] else 0)
  }

  predicate Credited(i: Inputs, w: Wallet) {
    (w in i.onchain || w in i.pendle || w in i.morpho) && Credit(i, w) != 0
  }

  predicate IsVenue(i: Inputs, w: Wallet) {
    exists k :: 0 <= k < |i.venues| && i.venues[k].address == w
  }

  /** The venue listed last for an address has this key. */
  predicate BelongsTo(i: Inputs, w: Wallet, key: nat) {
    exists k :: 0 <= k < |i.venues| && i.venues[k].address == w && i.venues[k].key == key
                && forall l :: k < l < |i.venues| ==> i.venues[l].address != w
  }

  // The tests in the order they apply: a venue first, then blocked, then the company's own, then the floor.
  predicate IsRanked(i: Inputs, w: Wallet) {
    Credited(i, w) && !IsVenue(i, w) && w !in i.blocked && w !in i.forestRoad && RANK_FLOOR <= Credit(i, w)
  }

  predicate IsBlocked(i: Inputs, w: Wallet) {
    Credited(i, w) && !IsVenue(i, w) && w in i.blocked
  }

  predicate IsOwn(i: Inputs, w: Wallet) {
    Credited(i, w) && !IsVenue(i, w) && w !in i.blocked && w in i.forestRoad
  }

  predicate IsBelowFloor(i: Inputs, w: Wallet) {
    Credited(i, w) && !IsVenue(i, w) && w !in i.blocked && w !in i.forestRoad && Credit(i, w) < RANK_FLOOR
  }

  ghost function CreditOf(i: Inputs, wallets: set<Wallet>): int {
    SumMap(map w | w in wallets :: Credit(i, w))
  }

  lemma {:induction false} LastVenue(venues: seq<Venue>, w: Wallet)
    ensures VenueOf(venues, w).Some? <==> exists k :: 0 <= k < |venues| && venues[k].address == w
    ensures VenueOf(venues, w).Some? ==>
              exists k :: 0 <= k < |venues| && venues[k] == VenueOf(venues, w).value && venues[k].address == w
                          && forall l :: k < l < |venues| ==> venues[l].address != w
  {
    if |venues| > 0 {
      var front, last := venues[..|venues| - 1], venues[|venues| - 1];
      LastVenue(front, w);
      if last.address == w {
        assert venues[|venues| - 1].address == w;
      } else if VenueOf(front, w).Some? {
        var k :| 0 <= k < |front| && front[k] == VenueOf(front, w).value && front[k].address == w
                 && forall l :: k < l < |front| ==> front[l].address != w;
        assert venues[k] == VenueOf(venues, w).value;
      }
    }
  }

  /** The bucket a wallet falls in, by those tests. */
  lemma BucketsByInputs(i: Inputs, w: Wallet)
    requires w in i.Candidates()
    ensures RowOf(i, w).points == Credit(i, w)
    ensures BucketOf(i, w) == Ranked <==> IsRanked(i, w)
    ensures BucketOf(i, w) == Blocked <==> IsBlocked(i, w)
    ensures BucketOf(i, w) == Own <==> IsOwn(i, w)
    ensures BucketOf(i, w) == BelowFloor <==> IsBelowFloor(i, w)
    ensures forall key :: BucketOf(i, w) == AtVenue(key) <==> Credited(i, w) && BelongsTo(i, w, key)
  {
    LastVenue(i.venues, w);
    if VenueOf(i.venues, w).Some? {
      var k :| 0 <= k < |i.venues| && i.venues[k] == VenueOf(i.venues, w).value && i.venues[k].address == w
               && forall l :: k < l < |i.venues| ==> i.venues[l].address != w;
      OnlyOneLast(i, w, k);
    }
  }

  lemma OnlyOneLast(i: Inputs, w: Wallet, k: nat)
    requires k < |i.venues| && i.venues[k].address == w && forall l :: k < l < |i.venues| ==> i.venues[l].address != w
    ensures forall key :: BelongsTo(i, w, key) <==> key == i.venues[k].key
  {
  }

  function RankedWallets(i: Inputs): set<Wallet> { set w | w in i.Candidates() && IsRanked(i, w) }

  function BlockedWallets(i: Inputs): set<Wallet> { set w | w in i.Candidates() && IsBlocked(i, w) }

  function OwnWallets(i: Inputs): set<Wallet> { set w | w in i.Candidates() && IsOwn(i, w) }

  function BelowFloorWallets(i: Inputs): set<Wallet> { set w | w in i.Candidates() && IsBelowFloor(i, w) }

  function VenueWallets(i: Inputs, key: nat): set<Wallet> {
    set w | w in i.Candidates() && Credited(i, w) && BelongsTo(i, w, key)
  }

  lemma MembersByInputs(i: Inputs)
    ensures Members(i, i.Candidates(), Ranked) == RankedWallets(i)
    ensures Members(i, i.Candidates(), Blocked) == BlockedWallets(i)
    ensures Members(i, i.Candidates(), Own) == OwnWallets(i)
    ensures Members(i, i.Candidates(), BelowFloor) == BelowFloorWallets(i)
    ensures forall key :: Members(i, i.Candidates(), AtVenue(key)) == VenueWallets(i, key)
  {
    forall w | w in i.Candidates()
      ensures BucketOf(i, w) == Ranked <==> IsRanked(i, w)
      ensures BucketOf(i, w) == Blocked <==> IsBlocked(i, w)
      ensures BucketOf(i, w) == Own <==> IsOwn(i, w)
      ensures BucketOf(i, w) == BelowFloor <==> IsBelowFloor(i, w)
      ensures forall key :: BucketOf(i, w) == AtVenue(key) <==> Credited(i, w) && BelongsTo(i, w, key)
    {
      BucketsByInputs(i, w);
    }
  }

  lemma PointsByInputs(i: Inputs, wallets: set<Wallet>)
    ensures PointsIn(i, wallets) == CreditOf(i, wallets)
  {
    assert PointMap(i, wallets) == map w | w in wallets :: Credit(i, w);
  }

  /**
   * Exactly the wallets entitled to a rank have one: credited with at least the floor, at no venue's
   * address, neither blocked nor the company's own; each once.
   */
  lemma RankedExactly(i: Inputs, b: Board)
    requires IsBoard(i, b)
    ensures forall w :: IsRanked(i, w) <==> exists k :: 0 <= k < |b.ranked| && b.ranked[k].row.wallet == w
    ensures forall k, l :: 0 <= k < l < |b.ranked| ==> b.ranked[k].row.wallet != b.ranked[l].row.wallet
  {
    BoardRows(i, b);
    forall w
      ensures IsRanked(i, w) <==> exists k :: 0 <= k < |b.ranked| && b.ranked[k].row.wallet == w
    {
      RowsHave(i, b.ranked, RankedWallets(i), w);
    }
    RowsDiffer(i, b.ranked, RankedWallets(i));
  }

  lemma BoardRows(i: Inputs, b: Board)
    requires IsBoard(i, b)
    ensures RowsOf(i, Rows(b.ranked), RankedWallets(i)) && b.rankedPoints == PointsIn(i, RankedWallets(i))
  {
    MembersByInputs(i);
  }

  lemma RowsHave(i: Inputs, ranked: seq<RankedRow>, wallets: set<Wallet>, w: Wallet)
    requires RowsOf(i, Rows(ranked), wallets)
    ensures w in wallets <==> exists k :: 0 <= k < |ranked| && ranked[k].row.wallet == w
  {
    var rows := Rows(ranked);
    if w in WalletsOf(rows) {
      var k :| 0 <= k < |rows| && rows[k].wallet == w;
      assert ranked[k].row.wallet == w;
    }
    if k :| 0 <= k < |ranked| && ranked[k].row.wallet == w {
      assert rows[k].wallet == w;
    }
  }

  lemma RowsDiffer(i: Inputs, ranked: seq<RankedRow>, wallets: set<Wallet>)
    requires RowsOf(i, Rows(ranked), wallets)
    ensures forall k, l :: 0 <= k < l < |ranked| ==> ranked[k].row.wallet != ranked[l].row.wallet
  {
    var rows := Rows(ranked);
    forall k, l | 0 <= k < l < |ranked|
      ensures ranked[k].row.wallet != ranked[l].row.wallet
    {
      assert rows[k].wallet != rows[l].wallet;
    }
  }

  /** A ranked row shows the wallet's own credit, whole and in its three parts; the total is theirs. */
  lemma RowsExactly(i: Inputs, b: Board)
    requires IsBoard(i, b)
    ensures forall k :: 0 <= k < |b.ranked| ==> ShowsCredit(i, b.ranked[k].row)
    ensures b.rankedPoints == CreditOf(i, RankedWallets(i))
  {
    BoardRows(i, b);
    PointsByInputs(i, RankedWallets(i));
    forall k | 0 <= k < |b.ranked|
      ensures ShowsCredit(i, b.ranked[k].row)
    {
      RowShown(i, b.ranked, RankedWallets(i), k);
    }
  }

  predicate ShowsCredit(i: Inputs, row: Row) {
    && row.points == Credit(i, row.wallet) == row.onchain + row.pendle + row.morpho
    && row.onchain == (if row.wallet in i.onchain then i.onchain[row.wallet] else 0)
    && row.pendle == (if row.wallet in i.pendle then i.pendle[row.wallet] else 0)
    && row.morpho == (if row.wallet in i.morpho then i.morpho[row.wallet] else 0)
  }

  lemma RowShown(i: Inputs, ranked: seq<RankedRow>, wallets: set<Wallet>, k: nat)
    requires RowsOf(i, Rows(ranked), wallets) && k < |ranked|
    ensures ShowsCredit(i, ranked[k].row)
  {
    assert Rows(ranked)[k] == RowOf(i, Rows(ranked)[k].wallet);
  }

  /** One more than the entitled wallets with strictly more credit. */
  lemma RanksExactly(i: Inputs, b: Board, k: nat)
    requires IsBoard(i, b) && k < |b.ranked|
    ensures b.ranked[k].rank == 1 + |set w | w in RankedWallets(i) && Credit(i, w) > b.ranked[k].row.points|
  {
    MembersByInputs(i);
    AboveByInputs(i, b.ranked[k].row.points);
  }

  lemma AboveByInputs(i: Inputs, points: int)
    requires Members(i, i.Candidates(), Ranked) == RankedWallets(i)
    ensures Above(i, points) == set w | w in RankedWallets(i) && Credit(i, w) > points
  {
  }

  /** Best first, ties by address. */
  lemma RowsInOrder(i: Inputs, b: Board, k: nat, l: nat)
    requires IsBoard(i, b) && k < l < |b.ranked|
    ensures var first, second := b.ranked[k].row, b.ranked[l].row;
            first.points > second.points || (first.points == second.points && first.wallet < second.wallet)
  {
    var rows := Rows(b.ranked);
    assert RowBefore(rows[k], rows[l]) && rows[k].wallet != rows[l].wallet;
  }

  /** The figures of the wallets that are not ranked; each venue line is the credit of the wallets whose last listed venue has its key. */
  lemma FiguresExactly(i: Inputs, b: Board)
    requires IsBoard(i, b)
    ensures b.jurisdictionBlocked == |BlockedWallets(i)|
    ensures b.ownWallets == |OwnWallets(i)| && b.ownPoints == CreditOf(i, OwnWallets(i))
    ensures b.belowFloor == |BelowFloorWallets(i)|
    ensures |b.venues| == |i.venues|
    ensures forall k :: 0 <= k < |i.venues| ==> b.venues[k] == CreditOf(i, VenueWallets(i, i.venues[k].key))
  {
    MembersByInputs(i);
    PointsByInputs(i, OwnWallets(i));
    forall k | 0 <= k < |i.venues|
      ensures b.venues[k] == CreditOf(i, VenueWallets(i, i.venues[k].key))
    {
      PointsByInputs(i, VenueWallets(i, i.venues[k].key));
    }
  }
}
