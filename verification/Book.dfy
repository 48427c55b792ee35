/** Historical realized credit loss per class, over the principal actually funded. */
module Book {
  import opened Wrappers

  const BPS: int := 10_000

  /** A funding or a realized loss: an amount booked to a class. */
  datatype Item = Item(classId: int, amount: int)

  datatype Slice = Slice(fundedPrincipal: int, netLoss: int, rateBps: Option<int>)

  datatype Entry = Entry(classId: int, slice: Slice)

  /** Totals, and one slice per class in the order the classes were first named. */
  datatype Metrics = Metrics(total: Slice, byClass: seq<Entry>)

  // ===== What the items alone say =====

  function Total(items: seq<Item>): int {
    if |items| == 0 then 0 else Total(items[..|items| - 1]) + items[|items| - 1].amount
  }

  function TotalFor(items: seq<Item>, c: int): int {
    if |items| == 0 then 0
    else TotalFor(items[..|items| - 1], c) + if items[|items| - 1].classId == c then items[|items| - 1].amount else 0
  }

  function ClassesOf(items: seq<Item>): seq<int> {
    seq(|items|, i requires 0 <= i < |items| => items[i].classId)
  }

  /** The members of `ids` in order of first occurrence. */
  function FirstOccurrences(ids: seq<int>): seq<int> {
    if |ids| == 0 then []
    else
      var before := FirstOccurrences(ids[..|ids| - 1]);
      if ids[|ids| - 1] in before then before else before + [ids[|ids| - 1]]
  }

  predicate NoneNegative(items: seq<Item>) {
    forall i :: 0 <= i < |items| ==> items[i].amount >= 0
  }

  function Rate(loss: int, funded: int): Option<int> {
    if funded == 0 then None else Some(loss * BPS / funded)
  }

  function SliceFor(funded: seq<Item>, losses: seq<Item>, c: int): Slice {
    var f, l := TotalFor(funded, c), TotalFor(losses, c);
    Slice(f, l, Rate(l, f))
  }

  function Slices(funded: seq<Item>, losses: seq<Item>, ids: seq<int>): seq<Entry> {
    seq(|ids|, i requires 0 <= i < |ids| => Entry(ids[i], SliceFor(funded, losses, ids[i])))
  }

  function MetricsOf(funded: seq<Item>, losses: seq<Item>, classIds: seq<int>): Metrics {
    Metrics(Slice(Total(funded), Total(losses), Rate(Total(losses), Total(funded))),
            Slices(funded, losses, FirstOccurrences(classIds + ClassesOf(funded) + ClassesOf(losses))))
  }

  // ===== The source's loops =====

  /** Adds up items per class, keeping the classes in insertion order as a JavaScript Map does. */
  method Tally(items: seq<Item>) returns (byClass: map<int, int>, keys: seq<int>, total: int, valid: bool)
    ensures valid <==> NoneNegative(items)
    ensures valid ==> && total == Total(items) && keys == FirstOccurrences(ClassesOf(items))
                      && (forall c :: c in byClass <==> c in keys)
                      && (forall c :: (if c in byClass then byClass[c] else 0) == TotalFor(items, c))
  {
    byClass, keys, total, valid := map[], [], 0, true;
    for n := 0 to |items|
      invariant valid && NoneNegative(items[..n])
      invariant total == Total(items[..n]) && keys == FirstOccurrences(ClassesOf(items[..n]))
      invariant forall c :: c in byClass <==> c in keys
      invariant forall c :: (if c in byClass then byClass[c] else 0) == TotalFor(items[..n], c)
    {
      var item := items[n];
      if item.amount < 0 {
        valid := false;
        return;
      }
      assert items[..n + 1][..n] == items[..n];
      assert ClassesOf(items[..n + 1])[..n] == ClassesOf(items[..n]);
      total := total + item.amount;
      if item.classId !in byClass {
        keys := keys + [item.classId];
      }
      byClass := byClass[item.classId := (if item.classId in byClass then byClass[item.classId] else 0) + item.amount];
    }
    assert items[..|items|] == items;
  }

  method CalculateHistoricalNetDefaultMetrics(funded: seq<Item>, losses: seq<Item>, classIds: seq<int>)
    returns (r: Result<Metrics, string>)
    ensures r.Ok? <==> NoneNegative(funded) && NoneNegative(losses)
    ensures r.Ok? ==> r.value == MetricsOf(funded, losses, classIds)
  {
    var fundedByClass, fundedKeys, fundedPrincipal, fundedValid := Tally(funded);
    if !fundedValid {
      return Err("funded principal cannot be negative");
    }
    var lossByClass, lossKeys, netLoss, lossValid := Tally(losses);
    if !lossValid {
      return Err("realized loss cannot be negative");
    }
    var named := classIds + fundedKeys + lossKeys;
    var byClass: seq<Entry> := [];
    ghost var seen: seq<int> := [];
    for n := 0 to |named|
      invariant seen == FirstOccurrences(named[..n])
      invariant byClass == Slices(funded, losses, seen)
    {
      var c := named[n];
      assert named[..n + 1][..n] == named[..n];
      if forall i :: 0 <= i < |byClass| ==> byClass[i].classId != c {
        assert forall i :: 0 <= i < |seen| ==> seen[i] == byClass[i].classId;
        var classFunded := if c in fundedByClass then fundedByClass[c] else 0;
        var classLoss := if c in lossByClass then lossByClass[c] else 0;
        byClass := byClass + [Entry(c, Slice(classFunded, classLoss, Rate(classLoss, classFunded)))];
        seen := seen + [c];
      } else {
        var i :| 0 <= i < |byClass| && byClass[i].classId == c;
        assert seen[i] == c;
      }
    }
    assert named[..|named|] == named;
    OccurrencesOfKeys(classIds, ClassesOf(funded), ClassesOf(losses));
    r := Ok(Metrics(Slice(fundedPrincipal, netLoss, Rate(netLoss, fundedPrincipal)), byClass));
  }

  // ===== First occurrences =====

  lemma {:induction false} OccurrencesMembers(ids: seq<int>)
    ensures forall c :: c in FirstOccurrences(ids) <==> c in ids
    ensures forall i, j :: 0 <= i < j < |FirstOccurrences(ids)| ==> FirstOccurrences(ids)[i] != FirstOccurrences(ids)[j]
  {
    if |ids| > 0 {
      OccurrencesMembers(ids[..|ids| - 1]);
      assert ids == ids[..|ids| - 1] + [ids[|ids| - 1]];
    }
  }

  /** Naming each part's distinct ids instead of all of them leaves the order of first occurrence. */
  lemma {:induction false} OccurrencesDeduped(a: seq<int>, b: seq<int>)
    ensures FirstOccurrences(a + FirstOccurrences(b)) == FirstOccurrences(a + b)
    decreases |b|
  {
    if |b| == 0 {
      assert a + FirstOccurrences(b) == a + b;
    } else {
      var front, last := b[..|b| - 1], b[|b| - 1];
      OccurrencesDeduped(a, front);
      assert (a + b)[..|a + b| - 1] == a + front;
      OccurrencesMembers(front);
      OccurrencesMembers(a + front);
      var before := FirstOccurrences(front);
      if last in before {
        assert last in a + front;
      } else {
        assert (a + (before + [last]))[..|a + before|] == a + before;
      }
    }
  }

  lemma {:induction false} OccurrencesPrefix(a: seq<int>, b: seq<int>, c: seq<int>)
    requires FirstOccurrences(a) == FirstOccurrences(b)
    ensures FirstOccurrences(a + c) == FirstOccurrences(b + c)
    decreases |c|
  {
    if |c| == 0 {
      assert a + c == a && b + c == b;
    } else {
      var front := c[..|c| - 1];
      OccurrencesPrefix(a, b, front);
      assert (a + c)[..|a + c| - 1] == a + front && (b + c)[..|b + c| - 1] == b + front;
    }
  }

  lemma OccurrencesOfKeys(a: seq<int>, b: seq<int>, c: seq<int>)
    ensures FirstOccurrences(a + FirstOccurrences(b) + FirstOccurrences(c)) == FirstOccurrences(a + b + c)
  {
    OccurrencesDeduped(a + FirstOccurrences(b), c);
    OccurrencesDeduped(a, b);
    OccurrencesPrefix(a + FirstOccurrences(b), a + b, c);
  }

  // ===== Totals are the sums of the slices =====

  function SumFunded(entries: seq<Entry>): int {
    if |entries| == 0 then 0 else SumFunded(entries[..|entries| - 1]) + entries[|entries| - 1].slice.fundedPrincipal
  }

  function SumLoss(entries: seq<Entry>): int {
    if |entries| == 0 then 0 else SumLoss(entries[..|entries| - 1]) + entries[|entries| - 1].slice.netLoss
  }

  /** Per-class totals summed over a list of classes. */
  function SumOver(items: seq<Item>, ids: seq<int>): int {
    if |ids| == 0 then 0 else SumOver(items, ids[..|ids| - 1]) + TotalFor(items, ids[|ids| - 1])
  }

  lemma {:induction false} OneMoreItem(items: seq<Item>, n: nat, ids: seq<int>)
    requires n < |items|
    requires forall i, j :: 0 <= i < j < |ids| ==> ids[i] != ids[j]
    ensures SumOver(items[..n + 1], ids) == SumOver(items[..n], ids) + if items[n].classId in ids then items[n].amount else 0
    decreases |ids|
  {
    if |ids| > 0 {
      OneMoreItem(items, n, ids[..|ids| - 1]);
      assert items[..n + 1][..n] == items[..n];
      assert ids == ids[..|ids| - 1] + [ids[|ids| - 1]];
    }
  }

  lemma {:induction false} ClassesPartition(items: seq<Item>, n: nat, ids: seq<int>)
    requires n <= |items|
    requires forall i, j :: 0 <= i < j < |ids| ==> ids[i] != ids[j]
    requires forall i :: 0 <= i < n ==> items[i].classId in ids
    ensures SumOver(items[..n], ids) == Total(items[..n])
  {
    if n == 0 {
      NothingToSum(ids);
      assert items[..0] == [];
    } else {
      ClassesPartition(items, n - 1, ids);
      OneMoreItem(items, n - 1, ids);
      assert items[..n][..n - 1] == items[..n - 1];
    }
  }

  lemma {:induction false} NothingToSum(ids: seq<int>)
    ensures SumOver([], ids) == 0
  {
    if |ids| > 0 {
      NothingToSum(ids[..|ids| - 1]);
    }
  }

  lemma {:induction false} SlicesSum(funded: seq<Item>, losses: seq<Item>, ids: seq<int>)
    ensures SumFunded(Slices(funded, losses, ids)) == SumOver(funded, ids)
    ensures SumLoss(Slices(funded, losses, ids)) == SumOver(losses, ids)
    decreases |ids|
  {
    if |ids| > 0 {
      SlicesSum(funded, losses, ids[..|ids| - 1]);
      assert Slices(funded, losses, ids)[..|ids| - 1] == Slices(funded, losses, ids[..|ids| - 1]);
    }
  }

  /** The totals are exactly the sums of the class slices, over pairwise distinct classes. */
  lemma TotalsAreSliceSums(funded: seq<Item>, losses: seq<Item>, classIds: seq<int>)
    ensures var m := MetricsOf(funded, losses, classIds);
            && m.total.fundedPrincipal == SumFunded(m.byClass) && m.total.netLoss == SumLoss(m.byClass)
            && (forall i, j :: 0 <= i < j < |m.byClass| ==> m.byClass[i].classId != m.byClass[j].classId)
  {
    var all := classIds + ClassesOf(funded) + ClassesOf(losses);
    var ids := FirstOccurrences(all);
    OccurrencesMembers(all);
    forall i | 0 <= i < |funded|
      ensures funded[i].classId in ids
    {
      assert all[|classIds| + i] == funded[i].classId;
    }
    forall i | 0 <= i < |losses|
      ensures losses[i].classId in ids
    {
      assert all[|classIds| + |funded| + i] == losses[i].classId;
    }
    ClassesPartition(funded, |funded|, ids);
    ClassesPartition(losses, |losses|, ids);
    assert funded[..|funded|] == funded && losses[..|losses|] == losses;
    SlicesSum(funded, losses, ids);
  }

  lemma {:induction false} TotalsNotNegative(items: seq<Item>, c: int)
    requires NoneNegative(items)
    ensures 0 <= TotalFor(items, c) <= Total(items)
  {
    if |items| > 0 {
      TotalsNotNegative(items[..|items| - 1], c);
    }
  }

  lemma RateNotNegative(loss: int, funded: int)
    requires 0 <= loss && 0 <= funded
    ensures Rate(loss, funded).Some? ==> 0 <= Rate(loss, funded).value
  {
  }
}
