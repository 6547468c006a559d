/** Readiness checks, one currency's close and the batch over all currencies. */
module EodOrchestration {
  import opened Common

  // ---------- Readiness ----------

  datatype CheckStatus = PASS | FAIL | WARNING

  datatype Check = Check(code: string, status: CheckStatus, count: nat)

  /** The counts of the readiness query; a missing column reads as neither zero nor a number. */
  datatype Counts = Counts(processing: Option<nat>, pending: Option<nat>,
                           uncategorized: Option<nat>, merchants: Option<nat>)

  function MakeCheck(code: string, count: Option<nat>, otherwise: CheckStatus): Check {
    Check(code, if count == Some(0) then PASS else otherwise, if count.Some? then count.value else 0)
  }

  function ReadinessChecks(c: Counts): seq<Check> {
    [ MakeCheck("PROCESSING_JOURNALS", c.processing, FAIL),
      MakeCheck("PENDING_TRANSACTIONS", c.pending, FAIL),
      MakeCheck("UNCATEGORIZED_PENDING_TRANSACTIONS", c.uncategorized, FAIL),
      MakeCheck("PENDING_MERCHANT_CONFIRMATIONS", c.merchants, WARNING) ]
  }

  predicate Ready(checks: seq<Check>) {
    forall i :: 0 <= i < |checks| ==> checks[i].status != FAIL
  }

  /** Ready exactly when the three blocking counts are zero; merchant confirmations only warn. */
  lemma ReadyExactlyWhen(c: Counts)
    ensures Ready(ReadinessChecks(c)) <==> c.processing == Some(0) && c.pending == Some(0) && c.uncategorized == Some(0)
  {
    var checks := ReadinessChecks(c);
    assert checks[0].status == FAIL || c.processing == Some(0);
    assert checks[1].status == FAIL || c.pending == Some(0);
    assert checks[2].status == FAIL || c.uncategorized == Some(0);
  }

  // ---------- One currency ----------

  /** The row the close procedure returns. */
  datatype CloseRow = CloseRow(success: bool, runId: Option<int>, batchId: Option<int>)

  /** What `runOne` meets for a currency: the counts (None: the query throws), the procedure's row
      (None: it throws) and whether recording the readiness throws. */
  datatype Reply = Reply(counts: Option<Counts>, close: Option<CloseRow>, persistThrows: bool)

  datatype OneResult = ReadinessConflict | Threw | Finished(status: string, readyForClose: bool)

  datatype CloseCall = CloseCall(currency: string, dryRun: bool, checks: seq<Check>)

  datatype ExceptionRow = ExceptionRow(runId: int, code: string, severity: string, count: nat)

  /** The exception rows of the checks that did not pass, in check order. */
  function ExceptionsOf(runId: int, checks: seq<Check>): seq<ExceptionRow> {
    if checks == [] then []
    else
      (if checks[0].status == PASS then []
       else [ExceptionRow(runId, checks[0].code,
                          if checks[0].status == FAIL then "ERROR" else "WARNING", checks[0].count)])
      + ExceptionsOf(runId, checks[1..])
  }

  predicate CallsClose(reply: Reply, dryRun: bool) {
    reply.counts.Some? && (dryRun || Ready(ReadinessChecks(reply.counts.value)))
  }

  predicate PersistFails(reply: Reply) {
    reply.close.Some? && reply.close.value.runId.Some? && reply.persistThrows
  }

  function OneOutcome(reply: Reply, dryRun: bool): OneResult {
    if reply.counts.None? then Threw
    else if !CallsClose(reply, dryRun) then ReadinessConflict
    else if reply.close.None? || PersistFails(reply) then Threw
    else
      var ready := Ready(ReadinessChecks(reply.counts.value)) && reply.close.value.success;
      Finished(if ready then (if dryRun then "READY" else "CLOSED") else "BLOCKED", ready)
  }

  // ---------- The batch ----------

  datatype Item = Item(currency: string, configured: bool, reply: Reply)

  datatype ItemResult = ItemResult(currency: string, configured: bool, status: string)

  function ItemOutcome(item: Item, dryRun: bool): ItemResult {
    ItemResult(item.currency, item.configured,
      if !item.configured then "BLOCKED"
      else match OneOutcome(item.reply, dryRun)
        case Finished(_, readyForClose) => if readyForClose then (if dryRun then "READY" else "CLOSED") else "BLOCKED"
        case _ => "FAILED")
  }

  function ItemOutcomes(items: seq<Item>, dryRun: bool): (r: seq<ItemResult>)
    ensures |r| == |items| && forall i :: 0 <= i < |items| ==> r[i] == ItemOutcome(items[i], dryRun)
  {
    seq(|items|, i requires 0 <= i < |items| => ItemOutcome(items[i], dryRun))
  }

  function CloseCalls(items: seq<Item>, dryRun: bool): seq<CloseCall> {
    if items == [] then []
    else
      var item := items[|items| - 1];
      CloseCalls(items[..|items| - 1], dryRun)
      + if item.configured && CallsClose(item.reply, dryRun)
        then [CloseCall(item.currency, dryRun, ReadinessChecks(item.reply.counts.value))] else []
  }

  function Count(results: seq<ItemResult>, status: string): nat {
    if results == [] then 0
    else Count(results[..|results| - 1], status) + if results[|results| - 1].status == status then 1 else 0
  }

  function Wanted(dryRun: bool): string { if dryRun then "READY" else "CLOSED" }

  function BatchStatus(successful: nat, expected: nat): string {
    if successful == expected && expected > 0 then "COMPLETED" else if successful > 0 then "PARTIAL" else "FAILED"
  }

  datatype Summary = Summary(status: string, expected: nat, successful: nat, blocked: nat, failed: nat)

  lemma NoItems(items: seq<Item>, dryRun: bool)
    ensures ItemOutcomes(items[..0], dryRun) == [] && CloseCalls(items[..0], dryRun) == []
  {
  }

  lemma OneMoreItem(items: seq<Item>, dryRun: bool, k: nat)
    requires k < |items|
    ensures ItemOutcomes(items[..k + 1], dryRun) == ItemOutcomes(items[..k], dryRun) + [ItemOutcome(items[k], dryRun)]
    ensures CloseCalls(items[..k + 1], dryRun) == CloseCalls(items[..k], dryRun)
      + if items[k].configured && CallsClose(items[k].reply, dryRun)
        then [CloseCall(items[k].currency, dryRun, ReadinessChecks(items[k].reply.counts.value))] else []
  {
    assert items[..k + 1][..k] == items[..k];
  }

  class EodOrchestrationService {
    var closeCalls: seq<CloseCall>           // calls made to the close procedure
    var exceptions: seq<ExceptionRow>        // sw_tbl_eod_exception
    var runSteps: map<int, string>           // EXTERNAL_READINESS step status by run
    var blockedRuns: set<int>
    var failedBatches: set<int>
    var batchStatus: Option<string>          // the batch row of the entity and date, when it exists

    constructor ()
      ensures closeCalls == [] && exceptions == [] && runSteps == map[] && blockedRuns == {} && failedBatches == {}
      ensures batchStatus == None
    {
      closeCalls, exceptions, runSteps, blockedRuns, failedBatches := [], [], map[], {}, {};
      batchStatus := None;
    }

    /** Records the readiness of a run: one step row, one exception row per check that did not pass,
        and the blocked run and failed batch when not ready. */
    method PersistReadiness(runId: Option<int>, batchId: Option<int>, checks: seq<Check>)
      modifies this`exceptions, this`runSteps, this`blockedRuns, this`failedBatches
      ensures runId.None? ==> exceptions == old(exceptions) && runSteps == old(runSteps)
                              && blockedRuns == old(blockedRuns) && failedBatches == old(failedBatches)
      ensures runId.Some? ==>
        && exceptions == old(exceptions) + ExceptionsOf(runId.value, checks)
        && runSteps == old(runSteps)[runId.value := if Ready(checks) then "PASSED" else "FAILED"]
        && blockedRuns == old(blockedRuns) + (if Ready(checks) then {} else {runId.value})
        && failedBatches == old(failedBatches)
                            + (if Ready(checks) || batchId.None? then {} else {batchId.value})
    {
      if runId.None? {
        return;
      }
      hide ExceptionsOf, Ready;
      runSteps := runSteps[runId.value := if Ready(checks) then "PASSED" else "FAILED"];
      RecordExceptions(runId.value, checks);
      if !Ready(checks) {
        blockedRuns := blockedRuns + {runId.value};
        if batchId.Some? {
          failedBatches := failedBatches + {batchId.value};
        }
      }
    }

    /** The loop over the checks that did not pass. */
    method RecordExceptions(runId: int, checks: seq<Check>)
      modifies this`exceptions
      ensures exceptions == old(exceptions) + ExceptionsOf(runId, checks)
    {
      hide ExceptionsOf;
      var i := 0;
      assert checks[0..] == checks;
      while i < |checks|
        invariant 0 <= i <= |checks|
        invariant exceptions + ExceptionsOf(runId, checks[i..]) == old(exceptions) + ExceptionsOf(runId, checks)
      {
        NextException(runId, checks, i);
        if checks[i].status != PASS {
          exceptions := exceptions + [ExceptionRow(runId, checks[i].code,
            if checks[i].status == FAIL then "ERROR" else "WARNING", checks[i].count)];
        }
        i := i + 1;
      }
      NothingLeft(runId, checks);
    }

    method RunOne(currency: string, dryRun: bool, reply: Reply) returns (r: OneResult)
      modifies this`closeCalls, this`exceptions, this`runSteps, this`blockedRuns, this`failedBatches
      ensures r == OneOutcome(reply, dryRun)
      ensures closeCalls == old(closeCalls) + (if CallsClose(reply, dryRun)
                then [CloseCall(currency, dryRun, ReadinessChecks(reply.counts.value))] else [])
      ensures r.Finished? && reply.close.value.runId.Some? ==>
        var id, checks := reply.close.value.runId.value, ReadinessChecks(reply.counts.value);
        && exceptions == old(exceptions) + ExceptionsOf(id, checks)
        && runSteps == old(runSteps)[id := if Ready(checks) then "PASSED" else "FAILED"]
        && blockedRuns == old(blockedRuns) + (if Ready(checks) then {} else {id})
        && failedBatches == old(failedBatches)
                            + (if Ready(checks) || reply.close.value.batchId.None? then {}
                               else {reply.close.value.batchId.value})
      ensures !r.Finished? || reply.close.value.runId.None? ==>
        exceptions == old(exceptions) && runSteps == old(runSteps) && blockedRuns == old(blockedRuns)
        && failedBatches == old(failedBatches)
    {
      if reply.counts.None? {
        return Threw;
      }
      var checks := ReadinessChecks(reply.counts.value);
      if !dryRun && !Ready(checks) {
        return ReadinessConflict;
      }
      closeCalls := closeCalls + [CloseCall(currency, dryRun, checks)];
      if reply.close.None? {
        return Threw;
      }
      var result := reply.close.value;
      if result.runId.Some? && reply.persistThrows {
        return Threw;
      }
      PersistReadiness(result.runId, result.batchId, checks);
      if !Ready(checks) {
        result := result.(success := false);
      }
      var ok := Ready(checks) && result.success;
      r := Finished(if ok then (if dryRun then "READY" else "CLOSED") else "BLOCKED", ok);
    }

    method RunAll(items: seq<Item>, dryRun: bool) returns (results: seq<ItemResult>, summary: Summary)
      modifies this
      ensures results == ItemOutcomes(items, dryRun)
      ensures summary.expected == |items| == summary.successful + summary.blocked + summary.failed
      ensures summary.successful == Count(results, Wanted(dryRun))
      ensures summary.blocked == Count(results, "BLOCKED") && summary.failed == Count(results, "FAILED")
      ensures summary.status == BatchStatus(summary.successful, |items|)
      ensures closeCalls == old(closeCalls) + CloseCalls(items, dryRun)
      ensures batchStatus == if old(batchStatus).Some? then Some(summary.status) else None
    {
      hide CloseCalls, ItemOutcomes, Ready, ReadinessChecks;
      results := [];
      var k := 0;
      NoItems(items, dryRun);
      while k < |items|
        invariant 0 <= k <= |items|
        invariant results == ItemOutcomes(items[..k], dryRun)
        invariant closeCalls == old(closeCalls) + CloseCalls(items[..k], dryRun)
        invariant batchStatus == old(batchStatus)
      {
        var item := items[k];
        OneMoreItem(items, dryRun, k);
        k := k + 1;
        if !item.configured {
          results := results + [ItemResult(item.currency, false, "BLOCKED")];
          continue;
        }
        var one := RunOne(item.currency, dryRun, item.reply);
        var status := match one
          case Finished(_, readyForClose) => if readyForClose then (if dryRun then "READY" else "CLOSED") else "BLOCKED"
          case _ => "FAILED";
        results := results + [ItemResult(item.currency, true, status)];
      }
      assert items[..k] == items;
      var successful := CountLoop(results, Wanted(dryRun));
      var blocked := CountLoop(results, "BLOCKED");
      var failed := CountLoop(results, "FAILED");
      CountsAddUp(items, dryRun);
      summary := Summary(BatchStatus(successful, |results|), |results|, successful, blocked, failed);
      if batchStatus.Some? {
        batchStatus := Some(summary.status);
      }
    }
  }

  /** `results.filter(...).length` */
  method CountLoop(results: seq<ItemResult>, status: string) returns (n: nat)
    ensures n == Count(results, status)
  {
    n := 0;
    for i := 0 to |results|
      invariant n == Count(results[..i], status)
    {
      assert results[..i + 1][..i] == results[..i];
      if results[i].status == status { n := n + 1; }
    }
    assert results[..|results|] == results;
  }

  // ---------- Batch properties ----------

  /** Every currency is counted as successful, blocked or failed, and only once. */
  lemma {:induction false} CountsAddUp(items: seq<Item>, dryRun: bool)
    ensures var results := ItemOutcomes(items, dryRun);
            Count(results, Wanted(dryRun)) + Count(results, "BLOCKED") + Count(results, "FAILED") == |items|
  {
    if items != [] {
      hide ItemOutcome, Wanted, Count;
      var front, last := items[..|items| - 1], items[|items| - 1];
      CountsAddUp(front, dryRun);
      var results := ItemOutcomes(items, dryRun);
      assert results[..|results| - 1] == ItemOutcomes(front, dryRun);
      CountLast(results, Wanted(dryRun));
      CountLast(results, "BLOCKED");
      CountLast(results, "FAILED");
      OneClass(last, dryRun);
    } else {
      assert ItemOutcomes(items, dryRun) == [];
    }
  }

  lemma CountLast(results: seq<ItemResult>, status: string)
    requires results != []
    ensures Count(results, status)
         == Count(results[..|results| - 1], status) + if results[|results| - 1].status == status then 1 else 0
  {
  }

  lemma OneClass(item: Item, dryRun: bool)
    ensures var status := ItemOutcome(item, dryRun).status;
            && (status == Wanted(dryRun) || status == "BLOCKED" || status == "FAILED")
            && Wanted(dryRun) != "BLOCKED" && Wanted(dryRun) != "FAILED"
  {
  }

  /** What one currency needs for a COMPLETED batch: it is configured, has no FAIL check, and its
      close succeeded and was recorded. Pending merchant confirmations are not asked for. */
  predicate Succeeds(item: Item) {
    item.configured && item.reply.counts.Some? && item.reply.close.Some? && item.reply.close.value.success &&
    !PersistFails(item.reply) &&
    var c := item.reply.counts.value;
    c.processing == Some(0) && c.pending == Some(0) && c.uncategorized == Some(0)
  }

  /** A configured currency fails when a step throws, or when a real close is not ready; otherwise a
      currency that does not succeed is blocked. */
  lemma OutcomeExactlyWhen(item: Item, dryRun: bool)
    ensures ItemOutcome(item, dryRun).status == (if dryRun then "READY" else "CLOSED") <==> Succeeds(item)
    ensures ItemOutcome(item, dryRun).status == "FAILED"
            <==> && item.configured
                 && (|| item.reply.counts.None? || item.reply.close.None?
                     || (item.reply.close.value.runId.Some? && item.reply.persistThrows)
                     || (var c := item.reply.counts.value;
                         !dryRun && !(c.processing == Some(0) && c.pending == Some(0) && c.uncategorized == Some(0))))
    ensures ItemOutcome(item, dryRun).status in {"READY", "CLOSED", "BLOCKED", "FAILED"}
  {
    if item.reply.counts.Some? { ReadyExactlyWhen(item.reply.counts.value); }
  }

  lemma {:induction false} AllCounted(results: seq<ItemResult>, status: string)
    ensures Count(results, status) <= |results|
    ensures Count(results, status) == |results| <==> forall i :: 0 <= i < |results| ==> results[i].status == status
  {
    if results != [] {
      AllCounted(results[..|results| - 1], status);
    }
  }

  /** The batch is COMPLETED exactly when there is a currency and every currency succeeds. */
  lemma CompletedExactlyWhen(items: seq<Item>, dryRun: bool)
    ensures BatchStatus(Count(ItemOutcomes(items, dryRun), Wanted(dryRun)), |items|) == "COMPLETED"
            <==> items != [] && forall i :: 0 <= i < |items| ==> Succeeds(items[i])
  {
    var results := ItemOutcomes(items, dryRun);
    AllCounted(results, Wanted(dryRun));
    forall i | 0 <= i < |items| ensures results[i].status == Wanted(dryRun) <==> Succeeds(items[i]) {
      OutcomeExactlyWhen(items[i], dryRun);
    }
  }

  /** It is FAILED exactly when no currency succeeds, and PARTIAL when some do and some do not. */
  lemma OtherwiseFailedOrPartial(items: seq<Item>, dryRun: bool)
    ensures var status := BatchStatus(Count(ItemOutcomes(items, dryRun), Wanted(dryRun)), |items|);
            && (status == "FAILED" <==> forall i :: 0 <= i < |items| ==> !Succeeds(items[i]))
            && (status == "PARTIAL" <==> (exists i :: 0 <= i < |items| && Succeeds(items[i]))
                                         && exists i :: 0 <= i < |items| && !Succeeds(items[i]))
  {
    var results := ItemOutcomes(items, dryRun);
    AllCounted(results, Wanted(dryRun));
    NoneCounted(results, Wanted(dryRun));
    forall i | 0 <= i < |items| ensures results[i].status == Wanted(dryRun) <==> Succeeds(items[i]) {
      OutcomeExactlyWhen(items[i], dryRun);
    }
  }

  lemma {:induction false} NoneCounted(results: seq<ItemResult>, status: string)
    ensures Count(results, status) == 0 <==> forall i :: 0 <= i < |results| ==> results[i].status != status
  {
    if results != [] {
      NoneCounted(results[..|results| - 1], status);
    }
  }

  /** What a run records of the counts: an error for each blocking count that is not zero, a warning for
      merchant confirmations, in this order. */
  lemma ReadinessExceptions(runId: int, c: Counts)
    ensures ExceptionsOf(runId, ReadinessChecks(c))
         == Raised(runId, "PROCESSING_JOURNALS", "ERROR", c.processing)
            + Raised(runId, "PENDING_TRANSACTIONS", "ERROR", c.pending)
            + Raised(runId, "UNCATEGORIZED_PENDING_TRANSACTIONS", "ERROR", c.uncategorized)
            + Raised(runId, "PENDING_MERCHANT_CONFIRMATIONS", "WARNING", c.merchants)
  {
    ChecksInOrder(c);
    hide ExceptionsOf, MakeCheck, Raised, ReadinessChecks;
    var checks := ReadinessChecks(c);
    NothingLeft(runId, checks);
    RaisedNext(runId, checks, 3, c.merchants, WARNING);
    RaisedNext(runId, checks, 2, c.uncategorized, FAIL);
    RaisedNext(runId, checks, 1, c.pending, FAIL);
    RaisedNext(runId, checks, 0, c.processing, FAIL);
    assert checks[0..] == checks;
  }

  lemma ChecksInOrder(c: Counts)
    ensures var checks := ReadinessChecks(c);
            && |checks| == 4
            && checks[0] == MakeCheck(checks[0].code, c.processing, FAIL)
            && checks[0].code == "PROCESSING_JOURNALS"
            && checks[1] == MakeCheck(checks[1].code, c.pending, FAIL)
            && checks[1].code == "PENDING_TRANSACTIONS"
            && checks[2] == MakeCheck(checks[2].code, c.uncategorized, FAIL)
            && checks[2].code == "UNCATEGORIZED_PENDING_TRANSACTIONS"
            && checks[3] == MakeCheck(checks[3].code, c.merchants, WARNING)
            && checks[3].code == "PENDING_MERCHANT_CONFIRMATIONS"
  {
  }

  lemma NextException(runId: int, checks: seq<Check>, k: nat)
    requires k < |checks|
    ensures ExceptionsOf(runId, checks[k..])
         == (if checks[k].status == PASS then []
             else [ExceptionRow(runId, checks[k].code, if checks[k].status == FAIL then "ERROR" else "WARNING",
                                checks[k].count)])
            + ExceptionsOf(runId, checks[k + 1..])
  {
    assert checks[k..][1..] == checks[k + 1..];
  }

  lemma NothingLeft(runId: int, checks: seq<Check>)
    ensures ExceptionsOf(runId, checks[|checks|..]) == []
  {
  }

  lemma RaisedNext(runId: int, checks: seq<Check>, k: nat, count: Option<nat>, otherwise: CheckStatus)
    requires k < |checks| && checks[k] == MakeCheck(checks[k].code, count, otherwise) && otherwise != PASS
    ensures ExceptionsOf(runId, checks[k..])
         == Raised(runId, checks[k].code, if otherwise == FAIL then "ERROR" else "WARNING", count)
            + ExceptionsOf(runId, checks[k + 1..])
  {
    NextException(runId, checks, k);
  }

  function Raised(runId: int, code: string, severity: string, count: Option<nat>): seq<ExceptionRow> {
    match count
    case None => [ExceptionRow(runId, code, severity, 0)]
    case Some(n) => if n == 0 then [] else [ExceptionRow(runId, code, severity, n)]
  }

  /** A close that is not a dry run is never called with a FAIL check. */
  lemma {:induction false} RealClosesAreReady(items: seq<Item>, dryRun: bool)
    ensures forall k :: 0 <= k < |CloseCalls(items, dryRun)| && !CloseCalls(items, dryRun)[k].dryRun ==>
              Ready(CloseCalls(items, dryRun)[k].checks)
  {
    if items != [] {
      RealClosesAreReady(items[..|items| - 1], dryRun);
    }
  }

  /** Pending merchant confirmations alone change no currency's outcome. */
  lemma WarningsNeverBlock(item: Item, dryRun: bool, merchants: Option<nat>)
    requires item.reply.counts.Some?
    ensures var warned := item.(reply := item.reply.(counts := Some(item.reply.counts.value.(merchants := merchants))));
            ItemOutcome(warned, dryRun) == ItemOutcome(item, dryRun)
  {
    var c := item.reply.counts.value;
    ReadyExactlyWhen(c);
    ReadyExactlyWhen(c.(merchants := merchants));
  }
}
