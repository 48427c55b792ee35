/**
 * The transparency history's wire format: a printer to JSON with decimal strings, and a parser
 * that accepts nothing but what the printer can print (plus fields it does not read).
 */
module TransparencyHistory {
  import opened Book
  import opened Decimal
  import opened Wrappers

  const MAX_SAFE_INTEGER: int := 9_007_199_254_740_991

  datatype Key =
    | KeyOk | KeyAsOfBlock | KeyRevenue | KeyOriginationFees | KeyInterestFees | KeyPerformanceFees | KeyManagementFees
    | KeyCredit | KeyFundedPrincipal | KeyNetLoss | KeyRateBps | KeyByClass | KeyClassId
    | OtherKey(name: string)

  datatype Json =
    | Null
    | Bool(flag: bool)
    | Number(number: real)
    | Str(text: string)
    | Arr(items: seq<Json>)
    | Obj(fields: map<Key, Json>)

  datatype Revenue = Revenue(originationFees: int, interestFees: int, performanceFees: int, managementFees: int)

  datatype History = History(asOfBlock: int, revenue: Revenue, credit: Metrics)

  // ===== Printing =====

  function PrintRate(rate: Option<int>): Json {
    if rate.None? then Null else Str(Print(rate.value))
  }

  function SerializeEntry(e: Entry): Json {
    Obj(map[KeyClassId := Number(e.classId as real),
            KeyFundedPrincipal := Str(Print(e.slice.fundedPrincipal)),
            KeyNetLoss := Str(Print(e.slice.netLoss)),
            KeyRateBps := PrintRate(e.slice.rateBps)])
  }

  function SerializeEntries(entries: seq<Entry>): seq<Json> {
    seq(|entries|, i requires 0 <= i < |entries| => SerializeEntry(entries[i]))
  }

  function SerializeRevenue(r: Revenue): Json {
    Obj(map[KeyOriginationFees := Str(Print(r.originationFees)),
            KeyInterestFees := Str(Print(r.interestFees)),
            KeyPerformanceFees := Str(Print(r.performanceFees)),
            KeyManagementFees := Str(Print(r.managementFees))])
  }

  function SerializeCredit(m: Metrics): Json {
    Obj(map[KeyFundedPrincipal := Str(Print(m.total.fundedPrincipal)),
            KeyNetLoss := Str(Print(m.total.netLoss)),
            KeyRateBps := PrintRate(m.total.rateBps),
            KeyByClass := Arr(SerializeEntries(m.byClass))])
  }

  function SerializeTransparencyHistory(h: History): Json {
    Obj(map[KeyOk := Bool(true),
            KeyAsOfBlock := Str(Print(h.asOfBlock)),
            KeyRevenue := SerializeRevenue(h.revenue),
            KeyCredit := SerializeCredit(h.credit)])
  }

  // ===== Parsing =====

  function Field(j: Json, key: Key): Option<Json> {
    if j.Obj? && key in j.fields then Some(j.fields[key]) else None
  }

  function ParseDecimal(j: Option<Json>): Option<nat> {
    if j.Some? && j.value.Str? && IsDecimal(j.value.text) then Some(Value(j.value.text)) else None
  }

  function ParseNullableDecimal(j: Option<Json>): Option<Option<int>> {
    if j == Some(Null) then Some(None)
    else
      var d := ParseDecimal(j);
      if d.None? then None else Some(Some(d.value))
  }

  function ParseSlice(j: Json): Option<Slice> {
    var funded, loss, rate := ParseDecimal(Field(j, KeyFundedPrincipal)), ParseDecimal(Field(j, KeyNetLoss)),
                              ParseNullableDecimal(Field(j, KeyRateBps));
    if funded.None? || loss.None? || rate.None? then None else Some(Slice(funded.value, loss.value, rate.value))
  }

  predicate IsPositiveSafeInteger(x: real) {
    x == x.Floor as real && 0 < x.Floor <= MAX_SAFE_INTEGER
  }

  function ParseEntry(j: Json): Option<Entry> {
    var id := Field(j, KeyClassId);
    if id.None? || !id.value.Number? || !IsPositiveSafeInteger(id.value.number) then None
    else
      var slice := ParseSlice(j);
      if slice.None? then None else Some(Entry(id.value.number.Floor, slice.value))
  }

  predicate Named(entries: seq<Entry>, id: int) {
    exists i :: 0 <= i < |entries| && entries[i].classId == id
  }

  /** Class slices in order, refusing a class named twice. */
  function ParseEntries(items: seq<Json>): Option<seq<Entry>> {
    if |items| == 0 then Some([])
    else
      var before, e := ParseEntries(items[..|items| - 1]), ParseEntry(items[|items| - 1]);
      if before.None? || e.None? || Named(before.value, e.value.classId) then None
      else Some(before.value + [e.value])
  }

  function ParseRevenue(j: Json): Option<Revenue> {
    var a, b, c, d := ParseDecimal(Field(j, KeyOriginationFees)), ParseDecimal(Field(j, KeyInterestFees)),
                      ParseDecimal(Field(j, KeyPerformanceFees)), ParseDecimal(Field(j, KeyManagementFees));
    if a.None? || b.None? || c.None? || d.None? then None else Some(Revenue(a.value, b.value, c.value, d.value))
  }

  function ParseHistory(j: Json): Option<History> {
    var revenue, credit := Field(j, KeyRevenue), Field(j, KeyCredit);
    if Field(j, KeyOk) != Some(Bool(true)) || revenue.None? || credit.None? || !revenue.value.Obj? || !credit.value.Obj? then None
    else
      var classes := Field(credit.value, KeyByClass);
      if classes.None? || !classes.value.Arr? then None
      else
        var byClass := ParseEntries(classes.value.items);
        var asOf, fees, total := ParseDecimal(Field(j, KeyAsOfBlock)), ParseRevenue(revenue.value), ParseSlice(credit.value);
        if byClass.None? || asOf.None? || fees.None? || total.None? then None
        else Some(History(asOf.value, fees.value, Metrics(total.value, byClass.value)))
  }

  /** The source's parser, filling its Map of class slices in a loop. */
  method ParseTransparencyHistoryResponse(j: Json) returns (r: Result<History, string>)
    ensures r.Ok? <==> ParseHistory(j).Some?
    ensures r.Ok? ==> Some(r.value) == ParseHistory(j)
  {
    var revenue, credit := Field(j, KeyRevenue), Field(j, KeyCredit);
    if Field(j, KeyOk) != Some(Bool(true)) {
      return Err("history response was not successful");
    }
    if revenue.None? || !revenue.value.Obj? || credit.None? || !credit.value.Obj? {
      return Err("revenue and credit must be objects");
    }
    var classes := Field(credit.value, KeyByClass);
    if classes.None? || !classes.value.Arr? {
      return Err("credit.byClass must be an array");
    }
    var items := classes.value.items;
    var byClass: seq<Entry> := [];
    for n := 0 to |items|
      invariant ParseEntries(items[..n]) == Some(byClass)
    {
      assert items[..n + 1][..n] == items[..n];
      var e := ParseEntry(items[n]);
      if e.None? || Named(byClass, e.value.classId) {
        NoneStays(items, n + 1);
        return Err("a credit class is malformed or named twice");
      }
      byClass := byClass + [e.value];
    }
    assert items[..|items|] == items;
    var asOf, fees, total := ParseDecimal(Field(j, KeyAsOfBlock)), ParseRevenue(revenue.value), ParseSlice(credit.value);
    if asOf.None? || fees.None? || total.None? {
      return Err("a figure is not an unsigned decimal string");
    }
    r := Ok(History(asOf.value, fees.value, Metrics(total.value, byClass)));
  }

  lemma {:induction false} NoneStays(items: seq<Json>, n: nat)
    requires n <= |items| && ParseEntries(items[..n]).None?
    ensures ParseEntries(items).None?
    decreases |items|
  {
    if n < |items| {
      assert items[..|items| - 1][..n] == items[..n];
      NoneStays(items[..|items| - 1], n);
    } else {
      assert items[..n] == items;
    }
  }

  // ===== Which histories survive the wire =====

  predicate WireableSlice(s: Slice) {
    0 <= s.fundedPrincipal && 0 <= s.netLoss && (s.rateBps.Some? ==> 0 <= s.rateBps.value)
  }

  predicate WireableEntry(e: Entry) {
    0 < e.classId <= MAX_SAFE_INTEGER && WireableSlice(e.slice)
  }

  predicate AllWireable(entries: seq<Entry>) {
    forall i :: 0 <= i < |entries| ==> WireableEntry(entries[i])
  }

  predicate Wireable(h: History) {
    && 0 <= h.asOfBlock
    && 0 <= h.revenue.originationFees && 0 <= h.revenue.interestFees
    && 0 <= h.revenue.performanceFees && 0 <= h.revenue.managementFees
    && WireableSlice(h.credit.total)
    && AllWireable(h.credit.byClass)
  }

  // A JavaScript Map names each class once.
  predicate DistinctClasses(entries: seq<Entry>) {
    forall i, j :: 0 <= i < j < |entries| ==> entries[i].classId != entries[j].classId
  }

  lemma DecimalRoundTrip(n: int)
    ensures ParseDecimal(Some(Str(Print(n)))) == if n < 0 then None else Some(n)
  {
    if n < 0 {
      NegativeIsNotDecimal(n);
    } else {
      ValueOfPrint(n);
    }
  }

  lemma RateRoundTrip(rate: Option<int>)
    ensures ParseNullableDecimal(Some(PrintRate(rate))) == if rate.Some? && rate.value < 0 then None else Some(rate)
  {
    if rate.Some? {
      DecimalRoundTrip(rate.value);
    }
  }

  lemma EntryRoundTrip(e: Entry)
    ensures ParseEntry(SerializeEntry(e)) == if WireableEntry(e) then Some(e) else None
  {
    DecimalRoundTrip(e.slice.fundedPrincipal);
    DecimalRoundTrip(e.slice.netLoss);
    RateRoundTrip(e.slice.rateBps);
    var j := SerializeEntry(e);
    assert Field(j, KeyFundedPrincipal) == Some(Str(Print(e.slice.fundedPrincipal)));
    assert Field(j, KeyNetLoss) == Some(Str(Print(e.slice.netLoss)));
    assert Field(j, KeyRateBps) == Some(PrintRate(e.slice.rateBps));
    assert Field(j, KeyClassId) == Some(Number(e.classId as real));
  }

  lemma {:induction false} EntriesParse(items: seq<Json>, entries: seq<Entry>)
    requires DistinctClasses(entries) && |items| == |entries|
    requires forall i :: 0 <= i < |items| ==> ParseEntry(items[i]) == if WireableEntry(entries[i]) then Some(entries[i]) else None
    ensures ParseEntries(items) == if AllWireable(entries) then Some(entries) else None
    decreases |items|
  {
    if |items| > 0 {
      var n := |items| - 1;
      var front := entries[..n];
      EntriesParse(items[..n], front);
      assert entries == front + [entries[n]];
      assert AllWireable(entries) <==> AllWireable(front) && WireableEntry(entries[n]);
      assert !Named(front, entries[n].classId);
    }
  }

  lemma EntriesRoundTrip(entries: seq<Entry>)
    requires DistinctClasses(entries)
    ensures ParseEntries(SerializeEntries(entries)) == if AllWireable(entries) then Some(entries) else None
  {
    var items := SerializeEntries(entries);
    forall i | 0 <= i < |items|
      ensures ParseEntry(items[i]) == if WireableEntry(entries[i]) then Some(entries[i]) else None
    {
      EntryRoundTrip(entries[i]);
    }
    EntriesParse(items, entries);
  }

  lemma RevenueRoundTrip(r: Revenue)
    ensures ParseRevenue(SerializeRevenue(r))
            == if 0 <= r.originationFees && 0 <= r.interestFees && 0 <= r.performanceFees && 0 <= r.managementFees
               then Some(r) else None
  {
    DecimalRoundTrip(r.originationFees);
    DecimalRoundTrip(r.interestFees);
    DecimalRoundTrip(r.performanceFees);
    DecimalRoundTrip(r.managementFees);
    var j := SerializeRevenue(r);
    assert Field(j, KeyOriginationFees) == Some(Str(Print(r.originationFees)));
    assert Field(j, KeyInterestFees) == Some(Str(Print(r.interestFees)));
    assert Field(j, KeyPerformanceFees) == Some(Str(Print(r.performanceFees)));
    assert Field(j, KeyManagementFees) == Some(Str(Print(r.managementFees)));
  }

  lemma TotalRoundTrip(m: Metrics)
    ensures ParseSlice(SerializeCredit(m)) == if WireableSlice(m.total) then Some(m.total) else None
  {
    DecimalRoundTrip(m.total.fundedPrincipal);
    DecimalRoundTrip(m.total.netLoss);
    RateRoundTrip(m.total.rateBps);
    var j := SerializeCredit(m);
    assert Field(j, KeyFundedPrincipal) == Some(Str(Print(m.total.fundedPrincipal)));
    assert Field(j, KeyNetLoss) == Some(Str(Print(m.total.netLoss)));
    assert Field(j, KeyRateBps) == Some(PrintRate(m.total.rateBps));
  }

  /**
   * Parsing undoes printing exactly for the histories whose figures are not negative and whose
   * class ids are positive safe integers, null rates included; every other history is refused.
   */
  lemma WireRoundTrip(h: History)
    requires DistinctClasses(h.credit.byClass)
    ensures ParseHistory(SerializeTransparencyHistory(h)) == if Wireable(h) then Some(h) else None
  {
    DecimalRoundTrip(h.asOfBlock);
    RevenueRoundTrip(h.revenue);
    TotalRoundTrip(h.credit);
    EntriesRoundTrip(h.credit.byClass);
    PrintedFields(h);
    ParseFromFields(SerializeTransparencyHistory(h), SerializeRevenue(h.revenue), SerializeCredit(h.credit),
                    SerializeEntries(h.credit.byClass));
  }

  lemma PrintedFields(h: History)
    ensures var j := SerializeTransparencyHistory(h);
            && Field(j, KeyOk) == Some(Bool(true)) && Field(j, KeyAsOfBlock) == Some(Str(Print(h.asOfBlock)))
            && Field(j, KeyRevenue) == Some(SerializeRevenue(h.revenue)) && Field(j, KeyCredit) == Some(SerializeCredit(h.credit))
            && Field(SerializeCredit(h.credit), KeyByClass) == Some(Arr(SerializeEntries(h.credit.byClass)))
  {
  }

  lemma ParseFromFields(j: Json, revenue: Json, credit: Json, items: seq<Json>)
    requires Field(j, KeyOk) == Some(Bool(true)) && revenue.Obj? && credit.Obj?
    requires Field(j, KeyRevenue) == Some(revenue) && Field(j, KeyCredit) == Some(credit)
    requires Field(credit, KeyByClass) == Some(Arr(items))
    ensures var asOf, fees, total, byClass := ParseDecimal(Field(j, KeyAsOfBlock)), ParseRevenue(revenue),
                                              ParseSlice(credit), ParseEntries(items);
            ParseHistory(j) == if asOf.None? || fees.None? || total.None? || byClass.None? then None
                               else Some(History(asOf.value, fees.value, Metrics(total.value, byClass.value)))
  {
  }

  // ===== What the parser accepts =====

  /** `j` holds everything `printed` does, with the same leaves; an object may hold further fields. */
  predicate Carries(j: Json, printed: Json)
    decreases printed
  {
    match printed
    case Obj(fields) => j.Obj? && forall k :: k in fields ==> k in j.fields && Carries(j.fields[k], fields[k])
    case Arr(items) => j.Arr? && |j.items| == |items| && forall i :: 0 <= i < |items| ==> Carries(j.items[i], items[i])
    case _ => j == printed
  }

  lemma DecimalIsPrinted(j: Option<Json>)
    ensures ParseDecimal(j).Some? ==> j == Some(Str(Print(ParseDecimal(j).value)))
  {
    if ParseDecimal(j).Some? {
      PrintOfValue(j.value.text);
    }
  }

  lemma RateIsPrinted(j: Option<Json>)
    ensures var rate := ParseNullableDecimal(j);
            rate.Some? ==> j == Some(PrintRate(rate.value)) && (rate.value.Some? ==> 0 <= rate.value.value)
  {
    DecimalIsPrinted(j);
  }

  lemma SliceIsPrinted(j: Json)
    ensures var slice := ParseSlice(j);
            slice.Some? ==>
              && WireableSlice(slice.value)
              && Field(j, KeyFundedPrincipal) == Some(Str(Print(slice.value.fundedPrincipal)))
              && Field(j, KeyNetLoss) == Some(Str(Print(slice.value.netLoss)))
              && Field(j, KeyRateBps) == Some(PrintRate(slice.value.rateBps))
  {
    DecimalIsPrinted(Field(j, KeyFundedPrincipal));
    DecimalIsPrinted(Field(j, KeyNetLoss));
    RateIsPrinted(Field(j, KeyRateBps));
  }

  lemma RateCarried(rate: Option<int>)
    ensures Carries(PrintRate(rate), PrintRate(rate))
  {
  }

  lemma EntryIsPrinted(j: Json)
    ensures ParseEntry(j).Some? ==> WireableEntry(ParseEntry(j).value) && Carries(j, SerializeEntry(ParseEntry(j).value))
  {
    SliceIsPrinted(j);
    if ParseEntry(j).Some? {
      RateCarried(ParseEntry(j).value.slice.rateBps);
    }
  }

  predicate PrintedEntry(j: Json, e: Entry) {
    WireableEntry(e) && Carries(j, SerializeEntry(e))
  }

  predicate PrintedEntries(items: seq<Json>, entries: seq<Entry>) {
    && |entries| == |items| && DistinctClasses(entries)
    && forall i :: 0 <= i < |items| ==> PrintedEntry(items[i], entries[i])
  }

  lemma {:induction false} EntriesArePrinted(items: seq<Json>)
    ensures ParseEntries(items).Some? ==> PrintedEntries(items, ParseEntries(items).value)
    decreases |items|
  {
    if |items| > 0 && ParseEntries(items).Some? {
      EntriesArePrinted(items[..|items| - 1]);
      EntryIsPrinted(items[|items| - 1]);
      EntriesGrow(items, ParseEntries(items[..|items| - 1]).value, ParseEntry(items[|items| - 1]).value);
    }
  }

  lemma EntriesGrow(items: seq<Json>, before: seq<Entry>, e: Entry)
    requires |items| > 0 && PrintedEntries(items[..|items| - 1], before)
    requires PrintedEntry(items[|items| - 1], e) && !Named(before, e.classId)
    ensures PrintedEntries(items, before + [e])
  {
  }

  lemma PrintedEntriesCarry(items: seq<Json>, entries: seq<Entry>)
    requires PrintedEntries(items, entries)
    ensures AllWireable(entries) && Carries(Arr(items), Arr(SerializeEntries(entries)))
  {
  }

  lemma RevenueIsPrinted(j: Json)
    requires j.Obj?
    ensures ParseRevenue(j).Some? ==> Carries(j, SerializeRevenue(ParseRevenue(j).value))
  {
    DecimalIsPrinted(Field(j, KeyOriginationFees));
    DecimalIsPrinted(Field(j, KeyInterestFees));
    DecimalIsPrinted(Field(j, KeyPerformanceFees));
    DecimalIsPrinted(Field(j, KeyManagementFees));
  }

  lemma CreditIsPrinted(j: Json, m: Metrics)
    requires ParseSlice(j) == Some(m.total)
    requires Field(j, KeyByClass).Some? && Field(j, KeyByClass).value.Arr?
    requires ParseEntries(Field(j, KeyByClass).value.items) == Some(m.byClass)
    ensures Carries(j, SerializeCredit(m))
  {
    SliceIsPrinted(j);
    RateCarried(m.total.rateBps);
    var items := Field(j, KeyByClass).value.items;
    EntriesArePrinted(items);
    PrintedEntriesCarry(items, m.byClass);
  }

  lemma CreditIsWireable(j: Json, m: Metrics)
    requires ParseSlice(j) == Some(m.total)
    requires Field(j, KeyByClass).Some? && Field(j, KeyByClass).value.Arr?
    requires ParseEntries(Field(j, KeyByClass).value.items) == Some(m.byClass)
    ensures WireableSlice(m.total) && AllWireable(m.byClass) && DistinctClasses(m.byClass)
  {
    SliceIsPrinted(j);
    EntriesArePrinted(Field(j, KeyByClass).value.items);
    PrintedEntriesCarry(Field(j, KeyByClass).value.items, m.byClass);
  }

  lemma HistoryIsPrinted(j: Json, h: History, revenue: Json, credit: Json)
    requires Field(j, KeyOk) == Some(Bool(true)) && Field(j, KeyAsOfBlock) == Some(Str(Print(h.asOfBlock)))
    requires Field(j, KeyRevenue) == Some(revenue) && Field(j, KeyCredit) == Some(credit)
    requires Carries(revenue, SerializeRevenue(h.revenue)) && Carries(credit, SerializeCredit(h.credit))
    ensures Carries(j, SerializeTransparencyHistory(h))
  {
  }

  /** The parser yields a history only from an answer that carries exactly that history's printed form. */
  lemma OnlyPrintedFormsParse(j: Json)
    ensures ParseHistory(j).Some? ==>
              var h := ParseHistory(j).value;
              Wireable(h) && DistinctClasses(h.credit.byClass) && Carries(j, SerializeTransparencyHistory(h))
  {
    if ParseHistory(j).Some? {
      var h := ParseHistory(j).value;
      var revenue, credit := Field(j, KeyRevenue).value, Field(j, KeyCredit).value;
      DecimalIsPrinted(Field(j, KeyAsOfBlock));
      RevenueIsPrinted(revenue);
      CreditIsPrinted(credit, h.credit);
      CreditIsWireable(credit, h.credit);
      HistoryIsPrinted(j, h, revenue, credit);
    }
  }

  // ===== Summarizing the events =====

  datatype Originated = Originated(tokenId: Option<int>, classId: Option<int>)
  datatype Funded = Funded(tokenId: Option<int>, principal: Option<int>)
  datatype Loss = Loss(classId: Option<int>, loss: Option<int>)

  /** The class a token was last originated in. */
  function ClassOfToken(originated: seq<Originated>, token: int): Option<int> {
    if |originated| == 0 then None
    else
      var last := originated[|originated| - 1];
      if last.tokenId == Some(token) then last.classId else ClassOfToken(originated[..|originated| - 1], token)
  }

  predicate FullyOriginated(originated: seq<Originated>) {
    forall i :: 0 <= i < |originated| ==> originated[i].tokenId.Some? && originated[i].classId.Some?
  }

  predicate FundingKnown(originated: seq<Originated>, funded: seq<Funded>) {
    forall i :: 0 <= i < |funded| ==>
      funded[i].tokenId.Some? && funded[i].principal.Some? && ClassOfToken(originated, funded[i].tokenId.value).Some?
  }

  predicate LossesComplete(losses: seq<Loss>) {
    forall i :: 0 <= i < |losses| ==> losses[i].classId.Some? && losses[i].loss.Some?
  }

  predicate AllPresent(fees: seq<Option<int>>) {
    forall i :: 0 <= i < |fees| ==> fees[i].Some?
  }

  function FundedItems(originated: seq<Originated>, funded: seq<Funded>): seq<Item>
    requires FundingKnown(originated, funded)
  {
    seq(|funded|, i requires 0 <= i < |funded| =>
      Item(ClassOfToken(originated, funded[i].tokenId.value).value, funded[i].principal.value))
  }

  function LossItems(losses: seq<Loss>): seq<Item>
    requires LossesComplete(losses)
  {
    seq(|losses|, i requires 0 <= i < |losses| => Item(losses[i].classId.value, losses[i].loss.value))
  }

  function FeeTotal(fees: seq<Option<int>>): int
    requires AllPresent(fees)
  {
    if |fees| == 0 then 0 else FeeTotal(fees[..|fees| - 1]) + fees[|fees| - 1].value
  }

  method SumFees(fees: seq<Option<int>>) returns (sum: Option<int>)
    ensures sum.Some? <==> AllPresent(fees)
    ensures sum.Some? ==> sum.value == FeeTotal(fees)
  {
    var total := 0;
    for n := 0 to |fees|
      invariant AllPresent(fees[..n]) && total == FeeTotal(fees[..n])
    {
      assert fees[..n + 1][..n] == fees[..n];
      if fees[n].None? {
        return None;
      }
      total := total + fees[n].value;
    }
    assert fees[..|fees|] == fees;
    return Some(total);
  }

  method ClassesByToken(originated: seq<Originated>) returns (classByToken: Option<map<int, int>>)
    ensures classByToken.Some? <==> FullyOriginated(originated)
    ensures classByToken.Some? ==>
              forall t :: ClassOfToken(originated, t) == if t in classByToken.value then Some(classByToken.value[t]) else None
  {
    var byToken: map<int, int> := map[];
    for n := 0 to |originated|
      invariant FullyOriginated(originated[..n])
      invariant forall t :: ClassOfToken(originated[..n], t) == if t in byToken then Some(byToken[t]) else None
    {
      assert originated[..n + 1][..n] == originated[..n];
      if originated[n].tokenId.None? || originated[n].classId.None? {
        return None;
      }
      byToken := byToken[originated[n].tokenId.value := originated[n].classId.value];
    }
    assert originated[..|originated|] == originated;
    return Some(byToken);
  }

  datatype Events = Events(
    asOfBlock: int, classIds: seq<int>,
    originated: seq<Originated>, funded: seq<Funded>, losses: seq<Loss>,
    originationFees: seq<Option<int>>, distributions: seq<Option<int>>,
    performanceFees: seq<Option<int>>, managementFees: seq<Option<int>>)

  predicate Complete(e: Events) {
    && FullyOriginated(e.originated) && FundingKnown(e.originated, e.funded) && LossesComplete(e.losses)
    && AllPresent(e.originationFees) && AllPresent(e.distributions)
    && AllPresent(e.performanceFees) && AllPresent(e.managementFees)
    && NoneNegative(FundedItems(e.originated, e.funded)) && NoneNegative(LossItems(e.losses))
  }

  method SummarizeTransparencyHistory(e: Events) returns (r: Result<History, string>)
    ensures r.Ok? <==> Complete(e)
    ensures r.Ok? ==>
              && r.value.asOfBlock == e.asOfBlock
              && r.value.revenue == Revenue(FeeTotal(e.originationFees), FeeTotal(e.distributions),
                                            FeeTotal(e.performanceFees), FeeTotal(e.managementFees))
              && r.value.credit == MetricsOf(FundedItems(e.originated, e.funded), LossItems(e.losses), e.classIds)
              && r.value.credit.total.fundedPrincipal == SumFunded(r.value.credit.byClass)
              && r.value.credit.total.netLoss == SumLoss(r.value.credit.byClass)
              && DistinctClasses(r.value.credit.byClass)
  {
    var classByToken := ClassesByToken(e.originated);
    if classByToken.None? {
      return Err("incomplete Originated event");
    }
    var funded: seq<Item> := [];
    for n := 0 to |e.funded|
      invariant FundingKnown(e.originated, e.funded[..n])
      invariant funded == FundedItems(e.originated, e.funded[..n])
    {
      var event := e.funded[n];
      if event.tokenId.None? || event.principal.None? || event.tokenId.value !in classByToken.value {
        return Err("incomplete Funded event or missing origination");
      }
      funded := funded + [Item(classByToken.value[event.tokenId.value], event.principal.value)];
    }
    assert e.funded[..|e.funded|] == e.funded;
    var losses: seq<Item> := [];
    for n := 0 to |e.losses|
      invariant LossesComplete(e.losses[..n]) && losses == LossItems(e.losses[..n])
    {
      var event := e.losses[n];
      if event.classId.None? || event.loss.None? {
        return Err("incomplete LossRealized event");
      }
      losses := losses + [Item(event.classId.value, event.loss.value)];
    }
    assert e.losses[..|e.losses|] == e.losses;
    var origination := SumFees(e.originationFees);
    var interest := SumFees(e.distributions);
    var performance := SumFees(e.performanceFees);
    var management := SumFees(e.managementFees);
    if origination.None? || interest.None? || performance.None? || management.None? {
      return Err("incomplete fee event");
    }
    var credit := CalculateHistoricalNetDefaultMetrics(funded, losses, e.classIds);
    if credit.Err? {
      return Err(credit.error);
    }
    TotalsAreSliceSums(funded, losses, e.classIds);
    r := Ok(History(e.asOfBlock, Revenue(origination.value, interest.value, performance.value, management.value), credit.value));
  }

  lemma SlicesWireable(funded: seq<Item>, losses: seq<Item>, classIds: seq<int>)
    requires NoneNegative(funded) && NoneNegative(losses)
    requires forall c :: c in classIds + ClassesOf(funded) + ClassesOf(losses) ==> 0 < c <= MAX_SAFE_INTEGER
    ensures WireableSlice(MetricsOf(funded, losses, classIds).total)
    ensures AllWireable(MetricsOf(funded, losses, classIds).byClass)
  {
    TotalsNotNegative(funded, 0);
    TotalsNotNegative(losses, 0);
    RateNotNegative(Total(losses), Total(funded));
    var ids := FirstOccurrences(classIds + ClassesOf(funded) + ClassesOf(losses));
    OccurrencesMembers(classIds + ClassesOf(funded) + ClassesOf(losses));
    forall k | 0 <= k < |ids|
      ensures WireableEntry(Entry(ids[k], SliceFor(funded, losses, ids[k])))
    {
      assert ids[k] in ids;
      TotalsNotNegative(funded, ids[k]);
      TotalsNotNegative(losses, ids[k]);
      RateNotNegative(TotalFor(losses, ids[k]), TotalFor(funded, ids[k]));
    }
  }

  /** A summary of events with unsigned fees and proper class ids reaches the page exactly as it was summarized. */
  lemma SummaryReachesPage(e: Events, h: History)
    requires Complete(e) && h.asOfBlock == e.asOfBlock >= 0
    requires h.revenue.originationFees >= 0 && h.revenue.interestFees >= 0
    requires h.revenue.performanceFees >= 0 && h.revenue.managementFees >= 0
    requires h.credit == MetricsOf(FundedItems(e.originated, e.funded), LossItems(e.losses), e.classIds)
    requires forall c :: c in e.classIds + ClassesOf(FundedItems(e.originated, e.funded)) + ClassesOf(LossItems(e.losses))
               ==> 0 < c <= MAX_SAFE_INTEGER
    ensures ParseHistory(SerializeTransparencyHistory(h)) == Some(h)
  {
    SlicesWireable(FundedItems(e.originated, e.funded), LossItems(e.losses), e.classIds);
    TotalsAreSliceSums(FundedItems(e.originated, e.funded), LossItems(e.losses), e.classIds);
    WireRoundTrip(h);
  }

  /** A token's class is that of its last origination. */
  lemma {:induction false} ClassIsLast(originated: seq<Originated>, token: int)
    ensures (exists i :: 0 <= i < |originated| && originated[i].tokenId == Some(token)) ==>
              exists i :: 0 <= i < |originated| && originated[i].tokenId == Some(token)
                          && ClassOfToken(originated, token) == originated[i].classId
                          && forall j :: i < j < |originated| ==> originated[j].tokenId != Some(token)
    ensures (forall i :: 0 <= i < |originated| ==> originated[i].tokenId != Some(token)) ==> ClassOfToken(originated, token) == None
  {
    if |originated| > 0 {
      var n := |originated| - 1;
      ClassIsLast(originated[..n], token);
      if originated[n].tokenId != Some(token) && exists i :: 0 <= i < |originated| && originated[i].tokenId == Some(token) {
        var i :| 0 <= i < |originated| && originated[i].tokenId == Some(token);
        assert originated[..n][i].tokenId == Some(token);
        var k :| 0 <= k < n && originated[..n][k].tokenId == Some(token)
                 && ClassOfToken(originated[..n], token) == originated[..n][k].classId
                 && forall j :: k < j < n ==> originated[..n][j].tokenId != Some(token);
        assert originated[k].tokenId == Some(token);
      }
    }
  }

  /** Fee totals add up over any split of the events, each fee counting for itself. */
  lemma {:induction false} FeeTotalsAdd(fees: seq<Option<int>>, more: seq<Option<int>>)
    requires AllPresent(fees) && AllPresent(more)
    ensures AllPresent(fees + more) && FeeTotal(fees + more) == FeeTotal(fees) + FeeTotal(more)
    ensures |more| == 1 ==> FeeTotal(more) == more[0].value
    decreases |more|
  {
    if |more| == 0 {
      assert fees + more == fees;
    } else {
      var front := more[..|more| - 1];
      FeeTotalsAdd(fees, front);
      assert (fees + more)[..|fees + more| - 1] == fees + front;
    }
  }
}
