# Verified model of the money-movement platform's back-office services

This project models the parts of the repository whose behaviour is easiest to get wrong and states, for
all inputs and all runs, what they keep:

- **End-of-day accounting** (`Calendar`, `EodPeriods`, `EodLease`, `EodCatchUp`, `EodProtocol`,
  `EodUndisturbed`, `EodScheduler`, `EodOrchestration`). Several service instances poll one schedule row,
  lease it for ten minutes, list each currency's overdue business dates and close them oldest first.
  `EodProtocol` is the distributed form: every statement and every close is one step, and instances
  interleave, stop, fail and overrun their lease between steps. `EodScheduler` is the service class itself, on ISO
  date texts. `EodCatchUp` is the meaning of one pass on day numbers. The class is proved to compute that
  meaning, and `EodUndisturbed` proves that a poll no other instance disturbs is a run of the protocol with
  the same effect.
- **KYC cases** (`KycModel`, `KycSafety`, `KycDecisions`, `KycRollback`, `KycReviewRace`, `KycService`). `KycModel` is the
  state machine of the transactions over cases, attempts, audit rows, profiles and account requests, with
  `verify` split into its two transactions and its catch block. `KycService` is the class whose methods are
  proved to take exactly those steps and to keep the invariant of all runs.
- **CSV reports** (`CsvReport`): the printer, and a parser for the format of RFC 4180, section 2.
- **General ledger report** (`GeneralLedger`): amounts in integer cents, the SQL as functions of the entries.
- **Sanctions names and lists** (`NameKeys`, `SanctionsStore`), **accounting configurations**
  (`AccountingConfig`) and the **concurrent flight search** (`FlightSearch`).

`Common` holds options and the extremes of finite sets.

## Assumptions

- Each SQL statement is atomic and has its own `CURRENT_TIMESTAMP`, not later than the clock; KYC
  transactions are serial and have distinct, increasing timestamps (`KycReviewRace` drops this for a
  review). The scheduler runs for one reporting entity, and periods are closed only through it. Process identifiers are not reused.
- The close procedure is an oracle: it closes one date of one currency, or fails, or closes it while the
  caller sees a failure. It never reopens a date.
- `verify`'s first transaction either fails before its INSERT or commits (`CleanSubmits`). `KycRollback` drops this.
  A COMMIT that reports an error has not committed.
- Generated identifiers are fresh. HTTP, OCR, clocks, time zones and file contents are arbitrary inputs.
- Screening keys work on UTF-16 code units. `toLowerCase` is modelled exactly on the units that can reach a
  key and up to units the key filter drops elsewhere.
- The extraction of a case is a map of already cleaned profile fields.
- The schedule methods take dates whose years, with the days around them, are 100 to 9999.
- Face scores are numbers. Ledger codes name one account each and none starts with `UNMAPPED:`, where a law says so.
- A wallet mapping names an existing ledger account, so a mapped entry's account is that account.
- Only the modelled KYC service writes cases, `KYC_Status` and `KYC_Case_ID`. The repository has other writers:
  wallet openings, administrators' edits and the onboarding runtime, which inserts profiles at status 1 and
  changes the customer of approved cases (src/modules/wallets/wallet.service.ts:209,
  src/modules/admin-operations/admin-operations.service.ts:1087,
  src/modules/onboarding/onboarding-runtime.service.ts:331-345).
- No column of a CSV report is named like a member every object inherits, such as `toString`: where a row
  lacks that key, `row[column]` would read the inherited member.
- The flight search's event loop may run any coroutine that can go on next, in any order, which covers the
  semaphore's first-come order.

## What the proofs found

- **A disabled schedule can still run.** When the SELECT after the leasing UPDATE throws, nothing is
  released, and that SELECT does not look at `enabled`: the same instance's next poll works under its
  leftover lease (`DisabledScheduleLeased` says exactly when, `DisabledScheduleRunsAnyway` gives the run).
- **A release that throws** leaves `ticking` set, so that instance answers BUSY for good, and leaves the
  lease to expire (`EodScheduler.EodSchedulerService.RunCatchUp`).
- **The schedule view and the catch-up list disagree** exactly when the due date is open although a later
  date is closed (`ViewAgreesWithCatchUp`): the view then says closed, the list says overdue.
- **No gaps needs the due date not to fall before the history's first day**; `FirstCloseKeepsHistory` says
  exactly which first close breaks the history.
- **`addDays` is not addition** for years below 100, which `Date.UTC` moves to the 1900s, nor when the
  result leaves the years 0 to 9999 (`AddDaysIsAddition`).
- **CSV rows without any column** cannot be read back (`SerializeRoundTrip`).
- **Names longer than 1000 units** are stored under a truncated key. It equals the screening key exactly
  when the part cut off holds nothing a key keeps (`KeysAgreeExactlyWhen`).
- **A sanctions run can be FAILED although its rows are committed**, when marking it COMPLETED throws; and
  one repeated record id refuses an official list as a whole, which manual uploads avoid by deduplicating.
- **Ledger account rows ignore the search filter**, so grand totals differ from them by exactly the
  period's entries the search leaves out (`GrandTotalsMatchAccounts`).
- **Effective dates tile without any assumption on start dates**: the table's CHECK on
  `effective_to` refuses every create that starts too early (`ConfigurationsTile`).
- **An approval can be lost.** The catch block of `verify` fails the case whatever its status is. When the
  first transaction was rolled back after its INSERT returned, the case may by then be approved
  (`ApprovalLostExactlyWhen`, `LateFailureUndoesApproval`).
- **Two concurrent reviews of one customer** can leave `KYC_Status` at 2 beside an approved case
  (`LateReviewAgreesExactlyWhen`, `RejectionOverwritesApproval`).
- **The audit trail of a FAILED case ends in PROCESSING**: the catch block writes no audit row (`AuditReplay`).

## Model

| member | source | states |
|---|---|---|
| Calendar.StringOrderIsDayOrder | accounting-service/src/eod/eod-scheduler.service.ts:250 | comparing two ISO dates as strings is comparing their proleptic Gregorian days, and equal days have equal texts (RFC 3339, section 5.1) |
| Calendar.DaysCountOn | accounting-service/src/eod/eod-scheduler.service.ts:287-290 | day 0 is 1 January 1970 and each next day number is the next date, by the lengths of the months and the leap rule |
| Calendar.AddDaysIsAddition | accounting-service/src/eod/eod-scheduler.service.ts:287-290 | `addDays` is addition on day numbers (ECMA-262, section 21.4.1) if and only if the year is at least 100 and the result has a four-digit year |
| Calendar.AddDaysComposes | accounting-service/src/eod/eod-scheduler.service.ts:287-290 | shifts compose, and opposite shifts cancel, in the years 100 to 9999 |
| EodPeriods.OverdueFollowsHistory | accounting-service/src/eod/eod-scheduler.service.ts:237-252 | after an unbroken history the overdue days start with the day after its last, whatever open rows there are |
| EodPeriods.OverdueDaysExactly | accounting-service/src/eod/eod-scheduler.service.ts:237-252 | the overdue days are the consecutive ones from the day after the last closed date, or the earliest open one, or the due date, up to the due date and the bound |
| EodPeriods.FirstCloseKeepsHistory | accounting-service/src/eod/eod-scheduler.service.ts:246-247 | with a due date before the history's first day, closing the first overdue day leaves the history unbroken if and only if that day is the one just before it |
| EodPeriods.EarlyDueDateLeavesGap | accounting-service/src/eod/eod-scheduler.service.ts:246-247 | a concrete history and due date at which the first close leaves a gap |
| EodCatchUp.CloseDatesStopsAtFailure | accounting-service/src/eod/eod-scheduler.service.ts:144-171 | a currency's attempted days are its closed ones and at most one more, the first that failed; nothing later is tried |
| EodCatchUp.PassCounts | accounting-service/src/eod/eod-scheduler.service.ts:142-173 | attempted = closed + blocked, at most one blocked per currency, at most maxDays per currency; which of COMPLETED, PARTIAL, BLOCKED and IDLE, exactly, by the counts |
| EodCatchUp.CurrenciesAreIndependent | accounting-service/src/eod/eod-scheduler.service.ts:142-172 | a currency's rows after a pass are those of its own turn on its own rows; a failing currency affects no other |
| EodCatchUp.TurnShrinksBacklog | accounting-service/src/eod/eod-scheduler.service.ts:142-171 | when closes succeed, a tick shrinks a currency's backlog by exactly min(backlog, maxDays) |
| EodCatchUp.BacklogClearedExactlyAfter | accounting-service/src/eod/eod-scheduler.service.ts:247-251 | a backlog of n days is cleared after ceil(n / maxDays) ticks and not before, whatever happens to other currencies |
| EodLease.LeaseAndRelease | accounting-service/src/eod/eod-scheduler.service.ts:207-235 | a tick leases for ten minutes under its own name and its release leaves no lease, its own status, times and last date, and the settings as they were |
| EodProtocol.RunKeepsLease | accounting-service/src/eod/eod-scheduler.service.ts:207-235 | in every run the row's lease is the last grant's or none, and a holder either still owns the row or its lease has run out |
| EodProtocol.LeaseSafety | accounting-service/src/eod/eod-scheduler.service.ts:126-139 | two instances are between acquiring and releasing only if the earlier one's ten minutes have passed; forced runs included |
| EodProtocol.HolderExpiredWhenRowIsTaken | accounting-service/src/eod/eod-scheduler.service.ts:208-215 | the same against an instance that has made the UPDATE but not yet the SELECT |
| EodProtocol.StaleReleaseChangesNothing | accounting-service/src/eod/eod-scheduler.service.ts:226-235 | an overtaken holder's release leaves the whole row as it is, so it never clears a newer lease |
| EodProtocol.LiveLeaseSurvives | accounting-service/src/eod/eod-scheduler.service.ts:207-235 | until it runs out, no step but the holder's own release or stop ends a lease |
| EodProtocol.SavingKeepsLease | accounting-service/src/eod/eod-scheduler.service.ts:102-112 | saving the schedule changes the settings and nothing of a lease or of the last tick |
| EodProtocol.DisabledScheduleLeased | accounting-service/src/eod/eod-scheduler.service.ts:207-224 | an unforced poll of a disabled schedule gets the lease if and only if the instance still has a lease of its own that is live at the SELECT |
| EodProtocol.DisabledScheduleRunsAnyway | accounting-service/src/eod/eod-scheduler.service.ts:137-139 | a concrete run in which that happens |
| EodProtocol.NoGaps | accounting-service/src/eod/eod-scheduler.service.ts:125-187 | from an unbroken history, every run keeps each currency's CLOSED days consecutive and closes none over an open earlier day, with several instances, failures, expiries and stops |
| EodUndisturbed.UndisturbedPoll | accounting-service/src/eod/eod-scheduler.service.ts:125-187 | a poll that meets no other instance is a protocol run whose periods and schedule row are exactly those of the sequential pass |
| EodScheduler.ViewDatesAreConsecutive | accounting-service/src/eod/eod-scheduler.service.ts:254-275 | latest due date, date closed next and the next closure's local date are three consecutive days |
| EodScheduler.DueExactlyWhenClosingTimeHasCome | accounting-service/src/eod/eod-scheduler.service.ts:254-259 | a business date is due if and only if the closing time of the day after it has come, to the minute |
| EodScheduler.NextClosureIsFirstAfterNow | accounting-service/src/eod/eod-scheduler.service.ts:261-275 | the next closure shown is the first closing time after now, and it closes the day before |
| EodScheduler.ViewAgreesWithCatchUp | accounting-service/src/eod/eod-scheduler.service.ts:78-83 | `closedThroughDueDate` agrees with an empty overdue list if and only if the due date is closed or no later date is |
| EodScheduler.ViewMissesOpenDueDate | accounting-service/src/eod/eod-scheduler.service.ts:78-83 | concrete rows at which the view says closed and the list says overdue |
| EodScheduler.ViewAgreesOnHistory | accounting-service/src/eod/eod-scheduler.service.ts:78-92 | given no history, or an unbroken one that starts by the due date, they always agree |
| EodScheduler.EodSchedulerService.OverdueDates | accounting-service/src/eod/eod-scheduler.service.ts:237-252 | starting from the text of the day after the last closed one, the earliest open one or the due date, the loop over date strings ends and lists exactly the consecutive overdue days, oldest first, up to the bound |
| EodScheduler.EodSchedulerService.RunCatchUp | accounting-service/src/eod/eod-scheduler.service.ts:125-187 | the whole new state and result of a poll: busy, not leased, or leased, caught up and released with the pass's status; what a throwing acquire, query or release leaves, with no due date in a FAILED result |
| EodScheduler.EodSchedulerService.Turn | accounting-service/src/eod/eod-scheduler.service.ts:143-171 | one currency's turn changes the database as `CurrencyTurn` says |
| EodScheduler.EodSchedulerService.AcquireSchedule | accounting-service/src/eod/eod-scheduler.service.ts:207-224 | a returned row is owned by this instance and live; none is returned if and only if there is no row, the row is disabled or another's and this instance has no live lease, or the new lease ran out before the SELECT; what a throwing statement leaves |
| EodOrchestration.ReadyExactlyWhen | accounting-service/src/eod/eod-readiness.service.ts:35-61 | `ready` if and only if the three failing counts are zero; pending merchants do not matter |
| EodOrchestration.EodOrchestrationService.PersistReadiness | accounting-service/src/eod/eod-orchestration.service.ts:161-202 | one exception row per check that did not pass, the step's status, and the run and batch marked only when not ready; nothing without a run |
| EodOrchestration.EodOrchestrationService.RunOne | accounting-service/src/eod/eod-orchestration.service.ts:19-54 | the outcome of one close, which close call is made, and what is recorded for its run and batch, or that nothing is |
| EodOrchestration.EodOrchestrationService.RunAll | accounting-service/src/eod/eod-orchestration.service.ts:56-128 | successful + blocked + failed is the number of currencies; results, close calls and batch status in order |
| EodOrchestration.CountsAddUp | accounting-service/src/eod/eod-orchestration.service.ts:104-125 | every currency is counted in exactly one of the three classes |
| EodOrchestration.CompletedExactlyWhen | accounting-service/src/eod/eod-orchestration.service.ts:104-107 | COMPLETED if and only if there is a currency and each is configured, has no FAIL check and a successful, recorded close |
| EodOrchestration.OtherwiseFailedOrPartial | accounting-service/src/eod/eod-orchestration.service.ts:104-107 | FAILED if and only if no currency succeeds, PARTIAL if and only if some do and some do not |
| EodOrchestration.OutcomeExactlyWhen | accounting-service/src/eod/eod-orchestration.service.ts:69-102 | what makes a currency succeed, and fail: a throwing step, or a real close that is not ready; otherwise it is blocked |
| EodOrchestration.ReadinessExceptions | accounting-service/src/eod/eod-orchestration.service.ts:177-185 | the exceptions of a run by the counts: an error for each blocking one that is not zero, a warning for merchants, in order |
| EodOrchestration.RealClosesAreReady | accounting-service/src/eod/eod-orchestration.service.ts:33-36 | a close that is not a dry run is never called with a FAIL check |
| EodOrchestration.WarningsNeverBlock | accounting-service/src/eod/eod-readiness.service.ts:54-61 | pending merchant confirmations change no outcome |
| KycSafety.ApprovalSafety | kyc-service/src/kyc.service.ts:163-187 | in every run an APPROVED case carries a CLEAR screening, equal to that of its latest completed attempt, and was decided by someone other than its creator |
| KycSafety.ApprovedForever | kyc-service/src/kyc.service.ts:272-394 | an APPROVED case never changes again, whatever verifications and reviews interleave |
| KycSafety.ProfileAgreement | kyc-service/src/kyc.service.ts:183-228 | KYC_Status is 1 if and only if the customer has an APPROVED case, and KYC_Case_ID is then the one approved last |
| KycSafety.NeverDemoted | kyc-service/src/kyc.service.ts:189-196 | no later rejection or other step takes KYC_Status from 1 |
| KycSafety.ReviewAlignsOpenings | kyc-service/src/kyc.service.ts:249-259 | a review leaves the customer's unopened account requests pointing to the profile's case if approved, else to the reviewed case with its status |
| KycSafety.AuditReplay | kyc-service/src/kyc.service.ts:366-402 | each case's audit rows lead from DRAFT, row by row, to its status, or to PROCESSING when it is FAILED |
| KycSafety.RecommendationNeedsClear | kyc-service/src/kyc.service.ts:333-353 | the system recommends APPROVED or REJECTED only for a case whose stored screening is clear, however transactions fail |
| KycSafety.RunIsSafe | kyc-service/src/kyc.service.ts:86-404 | the joint invariant of cases, attempts, running verifications, profiles and audit rows holds in every run |
| KycDecisions.SubmitAcceptedExactlyWhen | kyc-service/src/kyc.service.ts:283-296 | a case may be submitted if and only if it is a draft or for resubmission and has a selfie and its front document; the error otherwise |
| KycDecisions.ReviewAcceptedExactlyWhen | kyc-service/src/kyc.service.ts:163-182 | a case may be reviewed if and only if it awaits review, the reviewer is not its creator, and an approval has a clear screening |
| KycDecisions.CreateAcceptedExactlyWhen | kyc-service/src/kyc.service.ts:90-103 | a case may be created if and only if the customer has a profile and the key is new |
| KycDecisions.ReviewLeaves | kyc-service/src/kyc.service.ts:151-188 | APPROVE, REJECT and REQUEST_RESUBMISSION leave the case APPROVED, REJECTED and RESUBMISSION_REQUIRED, with its audit row and reviewer |
| KycDecisions.ReviewLeavesProfile | kyc-service/src/kyc.service.ts:195-228 | an approval copies the extracted fields and document type over the profile and keeps the others; other decisions keep all but the status, which is 1, 2 or 0 by the customer's cases and the decision |
| KycDecisions.RejectionIsFinal | kyc-service/src/kyc.service.ts:149-187 | after a rejection every continuation leaves the case as it is, refusing submissions and reviews |
| KycDecisions.RejectedForever | kyc-service/src/kyc.service.ts:272-394 | a REJECTED case never changes again, whatever verifications and reviews interleave |
| KycDecisions.ResubmissionReopens | kyc-service/src/kyc.service.ts:149-187 | after a request for resubmission the case may be submitted if and only if its documents are there, and not reviewed before |
| KycDecisions.CasesAreCreated | kyc-service/src/kyc.service.ts:95-104 | in every run a case's customer, document type, key and creator are those of the call that created it |
| KycDecisions.ScreeningsAreVerified | kyc-service/src/kyc.service.ts:347-365 | in every run a case's screening, extracted fields and face score are those of one verification of it |
| KycDecisions.ApprovalTakesTwoActors | kyc-service/src/kyc.service.ts:149-187 | in every run an approved case was created by one actor, verified as clear, and approved by another actor |
| KycDecisions.RecommendationExactlyWhen | kyc-service/src/kyc.service.ts:331-336 | in every run the recommendation is approval exactly on a clear screening scored 60 or more, rejection exactly on a clear one below 40, else manual review |
| KycDecisions.AuditActionsFit | kyc-service/src/kyc.service.ts:396-402 | in every run each audit row's action is the one its status change belongs to |
| KycDecisions.RunIsNumbered | kyc-service/src/kyc.service.ts:297-306 | in every run no two cases share an idempotency key and a case's attempts are numbered 1, 2, … without gap |
| KycRollback.RunKeepsCommitted | kyc-service/src/kyc.service.ts:274-313 | in every run, late rollbacks included, a committed verification keeps its case in PROCESSING or FAILED and is alone |
| KycRollback.ApprovalLostExactlyWhen | kyc-service/src/kyc.service.ts:377-391 | a case leaves APPROVED if and only if the step is the catch-block write of a verification of that case whose first transaction was rolled back late |
| KycRollback.LateFailureUndoesApproval | kyc-service/src/kyc.service.ts:377-391 | from every submittable state there is a run that leaves an approved case FAILED and the profile verified without an approved case |
| KycReviewRace.LateReviewAgreesExactlyWhen | kyc-service/src/kyc.service.ts:183-228 | a review that selected before other commits leaves KYC_Status in agreement if and only if it approves, had seen an approval, or there is none |
| KycReviewRace.RejectionOverwritesApproval | kyc-service/src/kyc.service.ts:183-228 | from every state with two reviewable cases of a customer, a rejection that selects before an approval and commits after it leaves status 2 beside the approved case |
| KycService.KycService.constructor | kyc-service/src/kyc.service.ts:86-404 | without cases and verified profiles the service is valid; every method below also keeps it valid: the joint invariant of all runs |
| KycService.KycService.Create | kyc-service/src/kyc.service.ts:86-113 | takes exactly the creating step, or reports the missing profile or repeated key and changes nothing |
| KycService.KycService.UploadDocument | kyc-service/src/kyc.service.ts:115-135 | adds a new file for a draft or resubmission case; otherwise, or for a repeated file, reports the refusal and changes nothing |
| KycService.KycService.VerifyBegin | kyc-service/src/kyc.service.ts:272-313 | the first transaction takes exactly the submitting step, or reports the refusal and changes nothing |
| KycService.KycService.VerifyComplete | kyc-service/src/kyc.service.ts:330-376 | the second transaction takes exactly the finishing step |
| KycService.KycService.VerifyFailAttempt | kyc-service/src/kyc.service.ts:380-384 | the first update of the catch block |
| KycService.KycService.VerifyFailCase | kyc-service/src/kyc.service.ts:385-388 | the second, unconditional on the case's status |
| KycService.KycService.Verify | kyc-service/src/kyc.service.ts:272-394 | a whole undisturbed call is submit then finish, or submit then both catch-block updates |
| KycService.KycService.FindApproved | kyc-service/src/kyc.service.ts:189-194 | the customer's approved case that ORDER BY reviewed_at DESC NULLS LAST, created_at DESC lists first, or none |
| KycService.KycService.ReviewCase | kyc-service/src/kyc.service.ts:149-270 | takes exactly the reviewing step on case, profile, requests and audit, or reports the refusal and changes nothing |
| CsvReport.FieldRoundTrip | accounting-service/src/common/csv-report.service.ts:8-12 | a printed cell is read back whatever its text: quotes, commas, CR, LF |
| CsvReport.TableRoundTrip | accounting-service/src/common/csv-report.service.ts:13-16 | parsing undoes printing on every table whose records have a field |
| CsvReport.SerializeRoundTrip | accounting-service/src/common/csv-report.service.ts:5-17 | parsing `serialize(rows)` returns the columns and each row's cell texts, null and missing as empty, if and only if there is a column |
| CsvReport.ReportHoldsEveryCell | accounting-service/src/common/csv-report.service.ts:5-17 | a reader of the report gets the rows' keys, each once in order of first appearance, and per row a record with each cell's text under its key and nothing elsewhere |
| CsvReport.QuotedOnlyWhenNeeded | accounting-service/src/common/csv-report.service.ts:6-12 | no rows print nothing; a cell is quoted if and only if its text has a quote, comma, CR or LF |
| CsvReport.DistinctKeepsFirstAppearance | accounting-service/src/common/csv-report.service.ts:7 | the columns are the distinct keys in the order of their first appearances |
| CsvReport.ReprintKeepsMeaning | accounting-service/src/common/csv-report.service.ts:8-16 | printing any parsed text again and parsing it gives the same table |
| GeneralLedger.RowIsAccount | accounting-service/src/reporting/accounting-report.service.ts:185-220 | the report's row of an account, zeros if not listed, is that account's sums |
| GeneralLedger.LedgerAccountHasItsRow | accounting-service/src/reporting/accounting-report.service.ts:185-220 | each ledger account with an entry in the books has exactly one row in its currency, with its name, type and side, summing exactly its entries on that side |
| GeneralLedger.UnmappedAccountHasItsRow | accounting-service/src/reporting/accounting-report.service.ts:185-220 | likewise unmapped entries, with the category's name, type and side or the code, UNKNOWN and DEBIT |
| GeneralLedger.ClosingIsCumulative | accounting-service/src/reporting/accounting-report.service.ts:212-220 | a closing balance is the signed sum of everything up to the period's end |
| GeneralLedger.RollForward | accounting-service/src/reporting/accounting-report.service.ts:185-220 | for every account of either side, listed or not, the closing of a period is the opening of the next |
| GeneralLedger.SplitPeriod | accounting-service/src/reporting/accounting-report.service.ts:185-268 | movements of a split period add to those of the whole, balances meet, and the parts of an accepted date range are accepted |
| GeneralLedger.AccountMovementsAddUp | accounting-service/src/reporting/accounting-report.service.ts:185-211 | the account rows' movements add up to the period's entries |
| GeneralLedger.CurrencyTotalsAddUp | accounting-service/src/reporting/accounting-report.service.ts:164-181 | grand totals are the sums of the currency totals, each currency once |
| GeneralLedger.GrandTotalsMatchAccounts | accounting-service/src/reporting/accounting-report.service.ts:164-211 | account movements equal the grand totals plus the entries the search leaves out, so they are equal without a search |
| GeneralLedger.DifferenceIsNet | accounting-service/src/reporting/accounting-report.service.ts:242-256 | every total's difference is its entries' debits minus credits, and it is flagged balanced if and only if they are equal |
| GeneralLedger.WholeJournalsBalance | accounting-service/src/reporting/accounting-report.service.ts:110-119 | any selection of whole journals, each shown balanced by the journal view, has equal debits and credits; journals not selected may be unbalanced |
| GeneralLedger.ReportBalances | accounting-service/src/reporting/accounting-report.service.ts:242-256 | if the query, with its account filter and search, selects whole balanced journals, the difference is zero and flagged balanced, and so is each currency's whose lines are whole journals |
| GeneralLedger.UnfilteredReportBalances | accounting-service/src/reporting/accounting-report.service.ts:242-256 | without filter and search that holds whenever the journals in the report balance and post in one entity and currency and on one date |
| GeneralLedger.ClosingsBalance | accounting-service/src/reporting/accounting-report.service.ts:212-220 | if the books up to the period's end are whole balanced journals, debit-normal closings add up to credit-normal closings |
| GeneralLedger.UnfilteredClosingsBalance | accounting-service/src/reporting/accounting-report.service.ts:212-220 | the same without an account filter for journals of one entity, currency and date |
| NameKeys.KeysAgreeExactlyWhen | kyc-service/src/sanctions.service.ts:283-287 | the stored key is the screening key if and only if the tidied name has at most 1000 units or the rest holds no key unit |
| NameKeys.KeyOfKey | kyc-service/src/kyc.service.ts:431-436 | the normaliser is idempotent |
| NameKeys.KeysEqualExactlyWhen | kyc-service/src/kyc.service.ts:431-436 | two names have the same key if and only if they read the same letter by letter apart from case, punctuation and how spaces are spread |
| NameKeys.FoldTellsLetters | kyc-service/src/kyc.service.ts:432-434 | lower-casing and filtering drop exactly the punctuation, keep spaces, and make two units alike if and only if they are the same letter in some case |
| NameKeys.KeyIgnores | kyc-service/src/kyc.service.ts:431-436 | anywhere in a name, letters may change case, punctuation may come and go, and any spacing may replace any other, without changing the key |
| NameKeys.TidyIsSqueeze | kyc-service/src/sanctions.service.ts:284 | collapsing white space and then trimming is one left-to-right pass |
| NameKeys.SpacesAreListed | kyc-service/src/sanctions.service.ts:284-285 | the white space of the normaliser is the 25 units of ECMA-262, sections 12.2 and 12.3 |
| SanctionsStore.DeduplicateKeepsLast | kyc-service/src/sanctions.service.ts:133-134 | deduplication leaves each record id once, with its last names |
| SanctionsStore.UploadStoresLastRows | kyc-service/src/sanctions.service.ts:125-150 | an upload stores the last row of each id (150 characters): the tidied name and the key it is screened under; REPLACE leaves nothing else, MERGE what is not mentioned |
| SanctionsStore.ManualSourceExactlyWhen | kyc-service/src/sanctions.service.ts:102-105 | a manual source is MANUAL_ with 2 to 32 capitals, digits and underscores |
| SanctionsStore.StoreIsFoldPerSource | kyc-service/src/sanctions.service.ts:219-256 | after any committed operations each source's rows are the fold of those operations on that source alone |
| SanctionsStore.ManualUploadEffect | kyc-service/src/sanctions.service.ts:125-150 | REPLACE installs exactly the last row per record id, MERGE overrides by id |
| SanctionsStore.ManualUploadTouchesOneSource | kyc-service/src/sanctions.service.ts:146-150 | a manual upload changes no other source |
| SanctionsStore.OfficialSyncEffect | kyc-service/src/sanctions.service.ts:78-79 | a synchronisation installs exactly the two official lists and changes no other source, so no manual list |
| SanctionsStore.SanctionsService.Replace | kyc-service/src/sanctions.service.ts:219-256 | the table stays the fold of the committed operations; a failure or repeated key changes nothing |
| SanctionsStore.SanctionsService.UploadManual | kyc-service/src/sanctions.service.ts:91-158 | refused if and only if the source or row count is bad or a row lacks a name, an id or a non-empty key; a committed upload leaves the last row per id and every other source as it was; the run row for every combination of lock, failure and failed completion |
| SanctionsStore.SanctionsService.SyncOfficial | kyc-service/src/sanctions.service.ts:62-89 | the same, with the minimum sizes of the two lists |
| AccountingConfig.ConfigurationsTile | accounting-service/src/accounting-config/accounting-config.service.ts:281-309 | after any creates and provisions, each currency's rows follow on from each other without gap or overlap and only the last is open |
| AccountingConfig.TiledCoversOnce | accounting-service/src/accounting-config/accounting-config.service.ts:281-309 | such rows cover every date from the first start on exactly once, and none before |
| AccountingConfig.ActiveCurrenciesListsOnce | accounting-service/src/accounting-config/accounting-config.service.ts:26-36 | over tiled rows `activeCurrencies` lists a currency exactly once from its first start on and not before |
| AccountingConfig.NeverListedTwice | accounting-service/src/accounting-config/accounting-config.service.ts:26-36 | after any creates and provisions it lists no currency twice |
| AccountingConfig.AccountingConfigService.Create | accounting-service/src/accounting-config/accounting-config.service.ts:270-310 | when a create is accepted, if and only if, which error otherwise, the whole new table as a tiling operation, and that tiling is kept |
| AccountingConfig.AccountingConfigService.ProvisionCurrency | accounting-service/src/accounting-config/accounting-config.service.ts:123-268 | succeeds if and only if the guards hold, all wallet types exist and no code has several wallets; then each code has exactly one, no wallet changed, new ones are empty and the configuration is on the safeguarding wallet; otherwise nothing changes; tiling is kept |
| AccountingConfig.FindOrCreate | accounting-service/src/accounting-config/accounting-config.service.ts:203-242 | the one matching wallet, created empty if missing, refused if several; other codes unaffected |
| AccountingConfig.ProvisioningGuards | accounting-service/src/accounting-config/accounting-config.service.ts:149-201 | the guards on the tables' own data: no row of the currency reaches today, the base has a row in force, a code has no two active system wallets, and which codes are required |
| FlightSearch.FlexibleDates | flight-finder/flight_finder/dates.py:14-22 | the loop's candidates are the pairs of the specification |
| FlightSearch.PairsAreConsecutive | flight-finder/flight_finder/dates.py:16-21 | those are the trips shifted by each offset in range that does not depart in the past, consecutive, none skipped |
| FlightSearch.PairsKeepTripLength | flight-finder/flight_finder/dates.py:16-21 | no candidate departs before today, and each keeps the original trip length |
| FlightSearch.JobsAreAllPairs | flight-finder/flight_finder/service.py:27 | every date pair meets every plan once, dates first |
| FlightSearch.BoundedAndInOrder | flight-finder/flight_finder/service.py:28-47 | after every sequence of events, so at every moment, at most `max_concurrency` calls are in flight and progress has been reported as 1, 2, … once each in order |
| FlightSearch.EnabledUntilReturned | flight-finder/flight_finder/service.py:28-49 | with a permit at all, some event can happen if and only if a job has not returned: the search never gets stuck |
| FlightSearch.RunsEnd | flight-finder/flight_finder/service.py:31-49 | a run has at most three events a job, and all jobs have returned if and only if it has had them all |
| FlightSearch.GathersInJobOrder | flight-finder/flight_finder/service.py:49 | in whatever order jobs finish, the replies are gathered in job order and progress has reached 1..n |
| FlightSearch.OffersInJobOrder | flight-finder/flight_finder/service.py:50 | the offers of each job stand together, after those of the jobs before it |
| FlightSearch.Search | flight-finder/flight_finder/service.py:28-51 | under every schedule of events the shared counter, semaphore and progress follow the run, and the result, once all jobs have returned, is the stable sort of the offers in job order |
| FlightSearch.SortIsStable | flight-finder/flight_finder/service.py:51 | the sort orders by (price, stops, duration) and keeps offers with equal keys in their order |
| FlightSearch.SortedByPriceStopsDuration | flight-finder/flight_finder/service.py:51 | the same offers, cheaper first, then fewer stops, then shorter, those equal in all three in their given order |
| FlightSearch.StableOrderIsUnique | flight-finder/flight_finder/service.py:51 | order and stability determine the result, so any stable sort gives it |

## Left out

- The SQL procedures behind closing, ledger functions, AML and `propagate_kyc_decision`: not part of this model, apart from the close's outcome.
- Balance sheet and income statement: they rest on those procedures.
- Time-zone conversion through `Intl`, OCR, face matching, downloads, object storage, and the XML and CSV parsing of sanctions files: their results are inputs.
- `verifiedProfileFields`' text clean-up: the fields arrive cleaned; that an approval overwrites only fields with a value is modelled.
- `customer_profile_operation_audit` rows and free-text reasons.
- Trigram scoring in `screenName`: the screening result is an input.
- `parseOfac` and `parseUn`: only the records they yield enter the model.
- Paging, listings and status queries, and `updateSchedule`'s time-zone check: easy members.
- Provider errors in the flight search: only error-free calls are modelled.
- Documents after DRAFT: the upload step does not check the case's status, because `upload` reads it without a lock and the case may have moved on by its INSERT; nothing is claimed about documents being frozen.
- KycReviewRace.LateReviewAgreesExactlyWhen: one late review against otherwise serial transactions; several late reviews at once are not modelled.
- EodScheduler.EodSchedulerService.RunCatchUp: log entries and the message text are not modelled.
- Concurrent provisioning and creation of one currency: configuration transactions are serial.
- React front ends, controllers, guards, entities, scripts and the migration runner.
