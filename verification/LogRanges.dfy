/**
 * Reading every log of a block range from a provider that may cut long answers short: both
 * recursions that split a range until its answers are provably complete.
 */
module LogRanges {
  import opened Wrappers

  const LOG_RESULT_LIMIT: nat := 1_000
  const MAX_SPLITS_PER_RANGE: nat := 64

  datatype Log = Log(block: int, address: nat, topic: nat, removed: bool, id: nat)

  // A contract with the events it may answer.
  datatype Source = Source(address: nat, topics: set<nat>)

  /** One `eth_getLogs` request: an answer, a refusal of it as too large, or a failure. */
  datatype Answer = Logs(logs: seq<Log>) | TooLarge | Failed

  // What a provider answers within one recursion, which asks each range at most once.
  datatype Rpc = Rpc(getLogs: (int, int) -> Answer, receipts: int -> Result<seq<Log>, string>)

  // Which logs a question is about.
  type Filter = Log -> bool

  /** The source listed first for an address. */
  function SourceOf(sources: seq<Source>, address: nat): Option<Source> {
    if |sources| == 0 then None
    else if sources[0].address == address then Some(sources[0])
    else SourceOf(sources[1..], address)
  }

  /** A log of one of the events of its address's source. */
  predicate Wanted(log: Log, sources: seq<Source>) {
    var source := SourceOf(sources, log.address);
    source.Some? && log.topic in source.value.topics
  }

  /** What the request asks for: any of the addresses with any of all the topics. */
  predicate Requested(log: Log, sources: seq<Source>) {
    && (exists i :: 0 <= i < |sources| && sources[i].address == log.address)
    && (exists i :: 0 <= i < |sources| && log.topic in sources[i].topics)
  }

  function WantedOf(sources: seq<Source>): Filter { log => Wanted(log, sources) }

  function RequestedOf(sources: seq<Source>): Filter { log => Requested(log, sources) }

  predicate InRange(log: Log, filter: Filter, from: int, to: int) {
    !log.removed && from <= log.block <= to && filter(log)
  }

  /** The logs of a range that the filter asks for among `logs`, in their order. */
  function Matching(logs: seq<Log>, filter: Filter, from: int, to: int): seq<Log>
    decreases |logs|
  {
    if |logs| == 0 then []
    else
      var last := logs[|logs| - 1];
      Matching(logs[..|logs| - 1], filter, from, to) + if InRange(last, filter, from, to) then [last] else []
  }

  predicate AllInRange(logs: seq<Log>, filter: Filter, from: int, to: int) {
    forall i :: 0 <= i < |logs| ==> InRange(logs[i], filter, from, to)
  }

  /** `logs` are the filter's logs of the range, all of them and each once. */
  ghost predicate Exactly(logs: seq<Log>, chain: seq<Log>, filter: Filter, from: int, to: int) {
    multiset(logs) == multiset(Matching(chain, filter, from, to))
  }

  /** The provider truncates only answers of LOG_RESULT_LIMIT entries or more: shorter ones hold all that was requested. */
  ghost predicate TruncatesOnlyLong(rpc: Rpc, chain: seq<Log>, requested: Filter) {
    forall from: int, to: int :: ShortAnswersComplete(rpc, chain, requested, from, to)
  }

  ghost predicate ShortAnswersComplete(rpc: Rpc, chain: seq<Log>, requested: Filter, from: int, to: int) {
    var answer := rpc.getLogs(from, to);
    answer.Logs? && |answer.logs| < LOG_RESULT_LIMIT ==> Exactly(answer.logs, chain, requested, from, to)
  }

  /** The receipts of a block carry every log of it. */
  ghost predicate CarriesBlocks(rpc: Rpc, chain: seq<Log>, wanted: Filter) {
    forall block: int :: ReceiptsComplete(rpc, chain, wanted, block)
  }

  ghost predicate ReceiptsComplete(rpc: Rpc, chain: seq<Log>, wanted: Filter, block: int) {
    var receipts := rpc.receipts(block);
    receipts.Ok? ==> Exactly(Matching(receipts.value, wanted, block, block), chain, wanted, block, block)
  }

  /** The two halves of a range hold together exactly the range's logs. */
  lemma {:induction false} HalvesPartition(logs: seq<Log>, filter: Filter, from: int, middle: int, to: int)
    requires from <= middle < to
    ensures multiset(Matching(logs, filter, from, middle)) + multiset(Matching(logs, filter, middle + 1, to))
            == multiset(Matching(logs, filter, from, to))
    decreases |logs|
  {
    if |logs| > 0 {
      HalvesPartition(logs[..|logs| - 1], filter, from, middle, to);
    }
  }

  lemma HalvesAddUp(first: seq<Log>, second: seq<Log>, whole: seq<Log>, chain: seq<Log>, filter: Filter,
                    from: int, middle: int, to: int)
    requires from <= middle < to && whole == first + second
    requires Exactly(first, chain, filter, from, middle) && Exactly(second, chain, filter, middle + 1, to)
    ensures Exactly(whole, chain, filter, from, to)
  {
    HalvesPartition(chain, filter, from, middle, to);
  }

  // ===== The market history's recursion =====

  /** What this recursion checks of an answer; the topics are checked by the decoder that follows it. */
  predicate AllFrom(logs: seq<Log>, address: nat, from: int, to: int) {
    forall i :: 0 <= i < |logs| ==> !logs[i].removed && from <= logs[i].block <= to && logs[i].address == address
  }

  /** Halves the range while an answer may have been cut short; a single crowded block fails. */
  function GetLogs(rpc: Rpc, address: nat, from: int, to: int): Result<seq<Log>, string>
    requires from <= to
    decreases -from + to
  {
    var answer := rpc.getLogs(from, to);
    if !answer.Logs? then Err("the request failed")
    else if !AllFrom(answer.logs, address, from, to) then Err("the RPC returned a log outside the requested filter")
    else if |answer.logs| < LOG_RESULT_LIMIT then Ok(answer.logs)
    else if from == to then Err("one block returned too many logs to prove the answer complete")
    else
      var middle := from + (to - from) / 2;
      var first := GetLogs(rpc, address, from, middle);
      if first.Err? then first else
        var second := GetLogs(rpc, address, middle + 1, to);
        if second.Err? then second else Ok(first.value + second.value)
  }

  /** Whatever the provider, only this contract's logs of the range come back. */
  lemma {:induction false} GetLogsWithinFilter(rpc: Rpc, address: nat, from: int, to: int)
    requires from <= to && GetLogs(rpc, address, from, to).Ok?
    ensures AllFrom(GetLogs(rpc, address, from, to).value, address, from, to)
    decreases -from + to
  {
    if |rpc.getLogs(from, to).logs| >= LOG_RESULT_LIMIT {
      var middle := from + (to - from) / 2;
      GetLogsWithinFilter(rpc, address, from, middle);
      GetLogsWithinFilter(rpc, address, middle + 1, to);
    }
  }

  /** With a provider that truncates only long answers, what comes back is exactly what was requested of the range. */
  lemma {:induction false} GetLogsExact(rpc: Rpc, chain: seq<Log>, requested: Filter, address: nat, from: int, to: int)
    requires from <= to && GetLogs(rpc, address, from, to).Ok?
    requires TruncatesOnlyLong(rpc, chain, requested)
    ensures Exactly(GetLogs(rpc, address, from, to).value, chain, requested, from, to)
    decreases -from + to
  {
    if |rpc.getLogs(from, to).logs| < LOG_RESULT_LIMIT {
      assert ShortAnswersComplete(rpc, chain, requested, from, to);
      assert GetLogs(rpc, address, from, to).value == rpc.getLogs(from, to).logs;
    } else {
      var middle := from + (to - from) / 2;
      LongAnswerHalves(rpc, address, from, to);
      GetLogsExact(rpc, chain, requested, address, from, middle);
      GetLogsExact(rpc, chain, requested, address, middle + 1, to);
      HalvesAddUp(GetLogs(rpc, address, from, middle).value, GetLogs(rpc, address, middle + 1, to).value,
                  GetLogs(rpc, address, from, to).value, chain, requested, from, middle, to);
    }
  }

  lemma LongAnswerHalves(rpc: Rpc, address: nat, from: int, to: int)
    requires from <= to && GetLogs(rpc, address, from, to).Ok? && |rpc.getLogs(from, to).logs| >= LOG_RESULT_LIMIT
    ensures from < to
    ensures var middle := from + (to - from) / 2;
            var first, second := GetLogs(rpc, address, from, middle), GetLogs(rpc, address, middle + 1, to);
            && first.Ok? && second.Ok?
            && GetLogs(rpc, address, from, to).value == first.value + second.value
  {
  }

  // ===== The leaderboard's recursion, under one shared split budget =====

  class Budget {
    var splits: int
    ghost var requests: nat

    constructor (splits: int)
      ensures this.splits == splits && requests == 0
    {
      this.splits, requests := splits, 0;
    }
  }

  /** Every wanted log of one block from its receipts, at least as many as its log answer held. */
  function BlockLogs(rpc: Rpc, wanted: Filter, block: int, atLeast: nat): Result<seq<Log>, string> {
    var receipts := rpc.receipts(block);
    if receipts.Err? then receipts
    else if exists i :: 0 <= i < |receipts.value| && (receipts.value[i].removed || receipts.value[i].block != block)
    then Err("a receipt log is not from the requested block")
    else
      var out := Matching(receipts.value, wanted, block, block);
      if |out| < atLeast then Err("a block's receipts hold fewer logs than its log answer") else Ok(out)
  }

  lemma {:induction false} MatchingInRange(logs: seq<Log>, filter: Filter, from: int, to: int)
    ensures AllInRange(Matching(logs, filter, from, to), filter, from, to)
    decreases |logs|
  {
    if |logs| > 0 {
      MatchingInRange(logs[..|logs| - 1], filter, from, to);
    }
  }

  lemma BlockLogsExact(rpc: Rpc, chain: seq<Log>, wanted: Filter, block: int, atLeast: nat)
    requires BlockLogs(rpc, wanted, block, atLeast).Ok?
    ensures AllInRange(BlockLogs(rpc, wanted, block, atLeast).value, wanted, block, block)
    ensures CarriesBlocks(rpc, chain, wanted) ==>
              Exactly(BlockLogs(rpc, wanted, block, atLeast).value, chain, wanted, block, block)
  {
    var receipts := rpc.receipts(block);
    MatchingInRange(receipts.value, wanted, block, block);
    if CarriesBlocks(rpc, chain, wanted) {
      assert ReceiptsComplete(rpc, chain, wanted, block);
    }
  }

  // The logs of a range, and what its splits cost: two for each range asked for in halves.
  datatype Reading = Reading(logs: seq<Log>, splits: nat)

  /** What reading a range comes to when no budget limits its splits. */
  function ReadWhole(rpc: Rpc, wanted: Filter, from: int, to: int): Result<Reading, string>
    requires from <= to
    decreases -from + to
  {
    var answer := rpc.getLogs(from, to);
    if answer.Failed? then Err("the request failed")
    else if answer.Logs? && !AllInRange(answer.logs, wanted, from, to) then Err("the RPC returned a log outside the requested filter")
    else if answer.Logs? && |answer.logs| < LOG_RESULT_LIMIT then Ok(Reading(answer.logs, 0))
    else if from == to then
      var block := BlockLogs(rpc, wanted, from, if answer.Logs? then |answer.logs| else 0);
      if block.Err? then Err(block.error) else Ok(Reading(block.value, 0))
    else
      var middle := from + (to - from) / 2;
      var first, second := ReadWhole(rpc, wanted, from, middle), ReadWhole(rpc, wanted, middle + 1, to);
      if first.Err? then first else if second.Err? then second
      else Ok(Reading(first.value.logs + second.value.logs, first.value.splits + second.value.splits + 2))
  }

  predicate NeedsHalves(rpc: Rpc, wanted: Filter, from: int, to: int) {
    var answer := rpc.getLogs(from, to);
    from < to && (answer.TooLarge? || (answer.Logs? && AllInRange(answer.logs, wanted, from, to) && |answer.logs| >= LOG_RESULT_LIMIT))
  }

  lemma HalvesOfWhole(rpc: Rpc, wanted: Filter, from: int, to: int)
    requires NeedsHalves(rpc, wanted, from, to)
    ensures var middle := from + (to - from) / 2;
            var first, second, whole := ReadWhole(rpc, wanted, from, middle), ReadWhole(rpc, wanted, middle + 1, to),
                                        ReadWhole(rpc, wanted, from, to);
            && (whole.Ok? <==> first.Ok? && second.Ok?)
            && (whole.Ok? ==> whole.value == Reading(first.value.logs + second.value.logs, first.value.splits + second.value.splits + 2))
  {
  }

  lemma {:induction false} ReadWholeWithin(rpc: Rpc, wanted: Filter, from: int, to: int)
    requires from <= to && ReadWhole(rpc, wanted, from, to).Ok?
    ensures AllInRange(ReadWhole(rpc, wanted, from, to).value.logs, wanted, from, to)
    decreases -from + to
  {
    var answer := rpc.getLogs(from, to);
    if NeedsHalves(rpc, wanted, from, to) {
      HalvesOfWhole(rpc, wanted, from, to);
      ReadWholeWithin(rpc, wanted, from, from + (to - from) / 2);
      ReadWholeWithin(rpc, wanted, from + (to - from) / 2 + 1, to);
    } else if answer.TooLarge? || |answer.logs| >= LOG_RESULT_LIMIT {
      BlockLogsExact(rpc, [], wanted, from, if answer.Logs? then |answer.logs| else 0);
    }
  }

  /** A reading, if it comes about, is exactly the range's wanted logs. */
  ghost predicate ExactReading(r: Result<Reading, string>, chain: seq<Log>, wanted: Filter, from: int, to: int) {
    r.Ok? ==> Exactly(r.value.logs, chain, wanted, from, to)
  }

  // Short answers hold all that was requested, receipts all that is wanted, and no more is wanted than requested.
  ghost predicate Honest(rpc: Rpc, chain: seq<Log>, requested: Filter, wanted: Filter) {
    && TruncatesOnlyLong(rpc, chain, requested) && CarriesBlocks(rpc, chain, wanted)
    && forall log: Log :: wanted(log) ==> requested(log)
  }

  /**
   * With a provider that truncates only long answers, every reading is exact, although the request
   * asks for more than is wanted: an answer with anything else in it is refused.
   */
  lemma {:induction false} ReadWholeExact(rpc: Rpc, chain: seq<Log>, requested: Filter, wanted: Filter, from: int, to: int)
    requires from <= to && Honest(rpc, chain, requested, wanted)
    ensures ExactReading(ReadWhole(rpc, wanted, from, to), chain, wanted, from, to)
    decreases -from + to
  {
    if NeedsHalves(rpc, wanted, from, to) {
      var middle := from + (to - from) / 2;
      ReadWholeExact(rpc, chain, requested, wanted, from, middle);
      ReadWholeExact(rpc, chain, requested, wanted, middle + 1, to);
      ExactHalvesOfWhole(rpc, chain, wanted, from, middle, to);
    } else {
      UnsplitExact(rpc, chain, requested, wanted, from, to);
    }
  }

  lemma ExactHalves(first: Result<Reading, string>, second: Result<Reading, string>, whole: Result<Reading, string>,
                    chain: seq<Log>, wanted: Filter, from: int, middle: int, to: int)
    requires from <= middle < to
    requires whole.Ok? ==> first.Ok? && second.Ok? && whole.value.logs == first.value.logs + second.value.logs
    requires ExactReading(first, chain, wanted, from, middle) && ExactReading(second, chain, wanted, middle + 1, to)
    ensures ExactReading(whole, chain, wanted, from, to)
  {
    if whole.Ok? {
      HalvesAddUp(first.value.logs, second.value.logs, whole.value.logs, chain, wanted, from, middle, to);
    }
  }

  lemma ExactHalvesOfWhole(rpc: Rpc, chain: seq<Log>, wanted: Filter, from: int, middle: int, to: int)
    requires NeedsHalves(rpc, wanted, from, to) && middle == from + (to - from) / 2
    requires ExactReading(ReadWhole(rpc, wanted, from, middle), chain, wanted, from, middle)
    requires ExactReading(ReadWhole(rpc, wanted, middle + 1, to), chain, wanted, middle + 1, to)
    ensures ExactReading(ReadWhole(rpc, wanted, from, to), chain, wanted, from, to)
  {
    HalvesOfWhole(rpc, wanted, from, to);
    ExactHalves(ReadWhole(rpc, wanted, from, middle), ReadWhole(rpc, wanted, middle + 1, to), ReadWhole(rpc, wanted, from, to),
                chain, wanted, from, middle, to);
  }

  /** What was requested is what is wanted, when nothing else came back. */
  lemma AnswerAllWanted(logs: seq<Log>, chain: seq<Log>, requested: Filter, wanted: Filter, from: int, to: int)
    requires Exactly(logs, chain, requested, from, to) && AllInRange(logs, wanted, from, to)
    requires forall log: Log :: wanted(log) ==> requested(log)
    ensures Exactly(logs, chain, wanted, from, to)
  {
    forall log | log in Matching(chain, requested, from, to)
      ensures wanted(log)
    {
      assert log in multiset(logs);
      assert log in logs;
    }
    SameMatching(chain, requested, wanted, from, to);
  }

  lemma {:induction false} SameMatching(chain: seq<Log>, requested: Filter, wanted: Filter, from: int, to: int)
    requires forall log :: log in Matching(chain, requested, from, to) ==> wanted(log)
    requires forall log: Log :: wanted(log) ==> requested(log)
    ensures Matching(chain, wanted, from, to) == Matching(chain, requested, from, to)
    decreases |chain|
  {
    if |chain| > 0 {
      SameMatching(chain[..|chain| - 1], requested, wanted, from, to);
    }
  }

  lemma UnsplitExact(rpc: Rpc, chain: seq<Log>, requested: Filter, wanted: Filter, from: int, to: int)
    requires from <= to && !NeedsHalves(rpc, wanted, from, to) && Honest(rpc, chain, requested, wanted)
    ensures ExactReading(ReadWhole(rpc, wanted, from, to), chain, wanted, from, to)
  {
    var answer := rpc.getLogs(from, to);
    if ReadWhole(rpc, wanted, from, to).Ok? {
      if answer.Logs? && |answer.logs| < LOG_RESULT_LIMIT {
        assert ShortAnswersComplete(rpc, chain, requested, from, to);
        AnswerAllWanted(answer.logs, chain, requested, wanted, from, to);
      } else {
        BlockLogsExact(rpc, chain, wanted, from, if answer.Logs? then |answer.logs| else 0);
      }
    }
  }

  /**
   * A reading allowed `allowed` splits of which `left` remain, at `requests` requests beyond `first`:
   * it succeeds exactly when the unlimited one does at a cost within the allowance, with the same
   * logs, each split paying for one request; failed or not, no request goes unpaid.
   */
  predicate Budgeted(r: Result<seq<Log>, string>, whole: Result<Reading, string>, allowed: int, left: int, requests: int, first: nat) {
    && (r.Ok? <==> whole.Ok? && whole.value.splits <= allowed)
    && (r.Ok? ==> r.value == whole.value.logs && left == allowed - whole.value.splits && requests == first + whole.value.splits)
    && requests <= first + allowed - (if left > 0 then left else 0)
  }

  method GetLogsWithin(rpc: Rpc, wanted: Filter, from: int, to: int, budget: Budget)
    returns (r: Result<seq<Log>, string>)
    requires from <= to && budget.splits >= 0
    modifies budget
    ensures Budgeted(r, ReadWhole(rpc, wanted, from, to), old(budget.splits), budget.splits, budget.requests - old(budget.requests), 1)
    decreases -from + to, 1
  {
    var answer := rpc.getLogs(from, to);
    budget.requests := budget.requests + 1;
    if answer.Failed? {
      return Err("the request failed");
    }
    if answer.Logs? && !AllInRange(answer.logs, wanted, from, to) {
      return Err("the RPC returned a log outside the requested filter");
    }
    if answer.Logs? && |answer.logs| < LOG_RESULT_LIMIT {
      return Ok(answer.logs);
    }
    if from == to {
      r := BlockLogs(rpc, wanted, from, if answer.Logs? then |answer.logs| else 0);
      return;
    }
    r := Split(rpc, wanted, from, to, budget);
  }

  /** Reads both halves of a range, if the budget still allows a split. */
  method Split(rpc: Rpc, wanted: Filter, from: int, to: int, budget: Budget) returns (r: Result<seq<Log>, string>)
    requires NeedsHalves(rpc, wanted, from, to) && budget.splits >= 0
    modifies budget
    ensures Budgeted(r, ReadWhole(rpc, wanted, from, to), old(budget.splits), budget.splits, budget.requests - old(budget.requests), 0)
    decreases -from + to, 0
  {
    HalvesOfWhole(rpc, wanted, from, to);
    budget.splits := budget.splits - 2;
    if budget.splits < 0 {
      return Err("the RPC refused or capped too many log ranges to prove the answer complete");
    }
    var middle := from + (to - from) / 2;
    r := GetLogsWithin(rpc, wanted, from, middle, budget);
    if r.Err? {
      return;
    }
    var first := r.value;
    r := GetLogsWithin(rpc, wanted, middle + 1, to, budget);
    if r.Err? {
      return;
    }
    r := Ok(first + r.value);
  }

  /** One discovery range, at most MAX_SPLITS_PER_RANGE + 1 log requests with any provider. */
  method ReadRange(rpc: Rpc, ghost chain: seq<Log>, sources: seq<Source>, from: int, to: int)
    returns (r: Result<seq<Log>, string>, ghost requests: nat)
    requires from <= to
    ensures var whole := ReadWhole(rpc, WantedOf(sources), from, to);
            r.Ok? <==> whole.Ok? && whole.value.splits <= MAX_SPLITS_PER_RANGE
    ensures r.Ok? ==> AllInRange(r.value, WantedOf(sources), from, to)
    ensures r.Ok? && TruncatesOnlyLong(rpc, chain, RequestedOf(sources)) && CarriesBlocks(rpc, chain, WantedOf(sources)) ==>
              Exactly(r.value, chain, WantedOf(sources), from, to)
    ensures requests <= MAX_SPLITS_PER_RANGE + 1
  {
    var budget := new Budget(MAX_SPLITS_PER_RANGE);
    r := GetLogsWithin(rpc, WantedOf(sources), from, to, budget);
    requests := budget.requests;
    if r.Ok? {
      ReadWholeWithin(rpc, WantedOf(sources), from, to);
      if TruncatesOnlyLong(rpc, chain, RequestedOf(sources)) && CarriesBlocks(rpc, chain, WantedOf(sources)) {
        WantedIsRequested(sources);
        ReadWholeExact(rpc, chain, RequestedOf(sources), WantedOf(sources), from, to);
      }
    }
  }

  lemma WantedIsRequested(sources: seq<Source>)
    ensures forall log: Log :: WantedOf(sources)(log) ==> RequestedOf(sources)(log)
  {
    forall log: Log | Wanted(log, sources)
      ensures Requested(log, sources)
    {
      SourceListed(sources, log.address);
    }
  }

  /** The source of an address is the first listed with it. */
  lemma {:induction false} SourceListed(sources: seq<Source>, address: nat)
    ensures SourceOf(sources, address).Some? <==> exists i :: 0 <= i < |sources| && sources[i].address == address
    ensures SourceOf(sources, address).Some? ==>
              exists i :: 0 <= i < |sources| && sources[i] == SourceOf(sources, address).value && sources[i].address == address
                          && forall j :: 0 <= j < i ==> sources[j].address != address
  {
    if |sources| > 0 && sources[0].address != address {
      var rest := sources[1..];
      SourceListed(rest, address);
      assert forall i :: 1 <= i < |sources| ==> sources[i] == rest[i - 1];
      if SourceOf(sources, address).Some? {
        var i :| 0 <= i < |rest| && rest[i] == SourceOf(rest, address).value && rest[i].address == address
                 && forall j :: 0 <= j < i ==> rest[j].address != address;
        assert sources[i + 1] == SourceOf(sources, address).value;
        assert forall j :: 0 <= j < i + 1 ==> sources[j].address != address;
      }
    } else if |sources| > 0 {
      assert sources[0] == SourceOf(sources, address).value;
    }
  }

  /** A provider that never fails, keeps to the filter and answers every single block in full is always read to the end. */
  lemma {:induction false} GetLogsCompletes(rpc: Rpc, address: nat, from: int, to: int)
    requires from <= to
    requires forall a: int, b: int :: rpc.getLogs(a, b).Logs? && AllFrom(rpc.getLogs(a, b).logs, address, a, b)
    requires forall a: int :: |rpc.getLogs(a, a).logs| < LOG_RESULT_LIMIT
    ensures GetLogs(rpc, address, from, to).Ok?
    decreases -from + to
  {
    if from < to {
      var middle := from + (to - from) / 2;
      GetLogsCompletes(rpc, address, from, middle);
      GetLogsCompletes(rpc, address, middle + 1, to);
    }
  }

  /** A block refused or crowded is read from its receipts, when they are its own and no fewer than the answer. */
  lemma CrowdedBlockRead(rpc: Rpc, wanted: Filter, block: int)
    requires var answer := rpc.getLogs(block, block);
             answer.TooLarge? || (answer.Logs? && AllInRange(answer.logs, wanted, block, block) && |answer.logs| >= LOG_RESULT_LIMIT)
    ensures var answer, receipts := rpc.getLogs(block, block), rpc.receipts(block);
            var whole := ReadWhole(rpc, wanted, block, block);
            && (whole.Ok? <==> receipts.Ok? && OwnReceipts(receipts.value, block)
                               && (answer.Logs? ==> |answer.logs| <= |Matching(receipts.value, wanted, block, block)|))
            && (whole.Ok? ==> whole.value == Reading(Matching(receipts.value, wanted, block, block), 0))
  {
  }

  predicate OwnReceipts(logs: seq<Log>, block: int) {
    forall i :: 0 <= i < |logs| ==> !logs[i].removed && logs[i].block == block
  }

  predicate Reads(rpc: Rpc, wanted: Filter, from: int, to: int) {
    var answer := rpc.getLogs(from, to);
    answer.TooLarge? || (answer.Logs? && AllInRange(answer.logs, wanted, from, to))
  }

  /** A provider that never fails and keeps to the filter is read to the end, however often it refuses or cuts short. */
  lemma {:induction false} ReadWholeCompletes(rpc: Rpc, wanted: Filter, from: int, to: int)
    requires from <= to
    requires forall a: int, b: int :: Reads(rpc, wanted, a, b)
    requires forall a: int :: ReadWhole(rpc, wanted, a, a).Ok?
    ensures ReadWhole(rpc, wanted, from, to).Ok?
    decreases -from + to
  {
    assert Reads(rpc, wanted, from, to);
    if NeedsHalves(rpc, wanted, from, to) {
      HalvesOfWhole(rpc, wanted, from, to);
      ReadWholeCompletes(rpc, wanted, from, from + (to - from) / 2);
      ReadWholeCompletes(rpc, wanted, from + (to - from) / 2 + 1, to);
    }
  }
}
