/** The published default rates are the losses over the funding, in basis points rounded down. */
module LossRates {
  import opened Arith
  import opened Book
  import opened Wrappers

  /** The rate is the loss in basis points of what was funded, rounded down; there is none of nothing. */
  lemma RateExact(loss: int, funded: int, q: int)
    requires 0 <= funded
    ensures Rate(loss, funded).None? <==> funded == 0
    ensures funded > 0 ==> (q <= Rate(loss, funded).value <==> q * funded <= loss * BPS)
  {
    if funded > 0 {
      FloorLe(loss * BPS, funded, q);
    }
  }

  predicate RateOf(rate: Option<int>, loss: int, funded: int) {
    if funded == 0 then rate.None?
    else rate.Some? && rate.value * funded <= loss * BPS < (rate.value + 1) * funded
  }

  /** Every published rate, the total's and each class's, is its own loss over its own funding. */
  lemma RatesExact(funded: seq<Item>, losses: seq<Item>, classIds: seq<int>)
    requires NoneNegative(funded) && NoneNegative(losses)
    ensures var m := MetricsOf(funded, losses, classIds);
            && RateOf(m.total.rateBps, m.total.netLoss, m.total.fundedPrincipal)
            && forall k :: 0 <= k < |m.byClass| ==>
                 RateOf(m.byClass[k].slice.rateBps, m.byClass[k].slice.netLoss, m.byClass[k].slice.fundedPrincipal)
  {
    var m := MetricsOf(funded, losses, classIds);
    TotalsNotNegative(funded, 0);
    RateIsRate(Total(losses), Total(funded));
    forall k | 0 <= k < |m.byClass|
      ensures RateOf(m.byClass[k].slice.rateBps, m.byClass[k].slice.netLoss, m.byClass[k].slice.fundedPrincipal)
    {
      var c := m.byClass[k].classId;
      TotalsNotNegative(funded, c);
      RateIsRate(TotalFor(losses, c), TotalFor(funded, c));
    }
  }

  lemma RateIsRate(loss: int, funded: int)
    requires 0 <= funded
    ensures RateOf(Rate(loss, funded), loss, funded)
  {
    if funded > 0 {
      RateExact(loss, funded, Rate(loss, funded).value);
      RateExact(loss, funded, Rate(loss, funded).value + 1);
    }
  }
}
