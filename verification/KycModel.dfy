/** The tables behind KYC cases and the transactions that change them. A transaction is one step;
    `verify` is a first transaction, an external call, and then either a second transaction or the
    two separate updates of its catch block, so other callers step in between. */
module KycModel {
  import opened Common

  datatype Status =
    DRAFT | SUBMITTED | PROCESSING | MANUAL_REVIEW | APPROVED | REJECTED | RESUBMISSION_REQUIRED | FAILED

  /** `screening_summary`: empty until a verification completes. */
  datatype Screening = NotScreened | Clear(name: string)
    | Match(name: string, recordId: string) | Unavailable(reason: string)

  datatype Action = APPROVE | REJECT | REQUEST_RESUBMISSION

  datatype Case = Case(
    customer: int, documentType: string, idempotencyKey: Option<string>, createdBy: string, createdAt: int,
    status: Status, recommendation: Option<Status>, faceScore: Option<real>, screening: Screening,
    extracted: map<string, string>, reviewedBy: Option<string>, reviewedAt: Option<int>)

  datatype AttemptStatus = InProgress | Completed | Broken

  datatype Attempt = Attempt(caseId: int, number: int, status: AttemptStatus, screening: Screening)

  datatype AuditRow = AuditRow(caseId: int, action: string, previous: Option<Status>, next: Status, actor: string)

  /** The identity fields of a profile are a map; a missing field is one never set. */
  datatype Profile = Profile(
    kycStatus: int, kycCase: Option<int>, verifiedBy: Option<string>, verifiedAt: Option<int>,
    fields: map<string, string>)

  datatype Opening = Opening(customer: int, status: string, caseId: Option<int>)

  /** A running `verify` whose `attemptId` is set. `committed` says whether its first transaction
      committed; `failing` that the first update of its catch block is done. */
  datatype Thread = Thread(caseId: int, attempt: int, committed: bool, failing: bool)

  datatype Document = Document(caseId: int, role: string, sha256: string)

  datatype Db = Db(
    cases: map<int, Case>, attempts: map<int, Attempt>, audit: seq<AuditRow>, profiles: map<int, Profile>,
    openings: map<int, Opening>, documents: set<Document>, threads: map<int, Thread>, clock: int)

  datatype Error = BadRequest | NotFound | Conflict

  // ---------- create ----------

  function CreateRefused(db: Db, customer: int, key: Option<string>): Option<Error> {
    if customer !in db.profiles then Some(NotFound)
    else if key.Some? && exists id :: id in db.cases && db.cases[id].idempotencyKey == key then Some(Conflict)
    else None
  }

  function Create(db: Db, id: int, customer: int, documentType: string, key: Option<string>, actor: string): Db {
    db.(cases := db.cases[id := Case(customer, documentType, key, actor, db.clock, DRAFT, None, None,
                                      NotScreened, map[], None, None)],
        audit := db.audit + [AuditRow(id, "CREATE", None, DRAFT, actor)])
  }

  // ---------- verify ----------

  function FrontRole(documentType: string): string {
    if documentType == "PASSPORT" then "PASSPORT" else "ID_FRONT"
  }

  predicate HasRole(documents: set<Document>, id: int, role: string) {
    exists d :: d in documents && d.caseId == id && d.role == role
  }

  function SubmitRefused(db: Db, id: int): Option<Error> {
    if id !in db.cases then Some(NotFound)
    else if db.cases[id].status != DRAFT && db.cases[id].status != RESUBMISSION_REQUIRED then Some(Conflict)
    else if !HasRole(db.documents, id, FrontRole(db.cases[id].documentType)) || !HasRole(db.documents, id, "SELFIE")
    then Some(BadRequest)
    else None
  }

  /** `COALESCE(max(attempt_number), 0) + 1` */
  function NextNumber(attempts: map<int, Attempt>, id: int): int {
    match Max(set a | a in attempts && attempts[a].caseId == id :: attempts[a].number)
    case None => 1
    case Some(n) => n + 1
  }

  function Submit(db: Db, t: int, attempt: int, id: int, actor: string): Db
    requires id in db.cases
  {
    db.(attempts := db.attempts[attempt := Attempt(id, NextNumber(db.attempts, id), InProgress, NotScreened)],
        cases := db.cases[id := db.cases[id].(status := PROCESSING)],
        audit := db.audit + [AuditRow(id, "SUBMIT", Some(db.cases[id].status), PROCESSING, actor)],
        threads := db.threads[t := Thread(id, attempt, true, false)])
  }

  function Recommendation(score: real): Status {
    if score >= 60.0 then APPROVED else if score >= 40.0 then MANUAL_REVIEW else REJECTED
  }

  /** The system recommends a decision only on a clear screening. */
  function FinalRecommendation(score: real, screening: Screening): Status {
    if screening.Clear? then Recommendation(score) else MANUAL_REVIEW
  }

  function Without<V>(m: map<int, V>, k: int): map<int, V> { map x | x in m && x != k :: m[x] }

  /** The second transaction; each UPDATE touches the row if it exists. */
  function Finish(db: Db, t: int, score: real, screening: Screening, extracted: map<string, string>): Db
    requires t in db.threads
  {
    var (id, a) := (db.threads[t].caseId, db.threads[t].attempt);
    db.(attempts := if a in db.attempts
                    then db.attempts[a := db.attempts[a].(status := Completed, screening := screening)]
                    else db.attempts,
        cases := if id in db.cases
                 then db.cases[id := db.cases[id].(status := MANUAL_REVIEW, screening := screening,
                                                   extracted := extracted, faceScore := Some(score),
                                                   recommendation := Some(FinalRecommendation(score, screening)))]
                 else db.cases,
        audit := db.audit + [AuditRow(id, "SYSTEM_RESULT", Some(PROCESSING), MANUAL_REVIEW, "KYC_SYSTEM")],
        threads := Without(db.threads, t))
  }

  function FailAttempt(db: Db, t: int): Db
    requires t in db.threads
  {
    var a := db.threads[t].attempt;
    db.(attempts := if a in db.attempts then db.attempts[a := db.attempts[a].(status := Broken)] else db.attempts,
        threads := db.threads[t := db.threads[t].(failing := true)])
  }

  /** Unconditional: whatever the case's status is by now. */
  function FailCase(db: Db, t: int): Db
    requires t in db.threads
  {
    var id := db.threads[t].caseId;
    db.(cases := if id in db.cases then db.cases[id := db.cases[id].(status := FAILED)] else db.cases,
        threads := Without(db.threads, t))
  }

  // ---------- review ----------

  function Decided(action: Action): Status {
    match action case APPROVE => APPROVED case REJECT => REJECTED case REQUEST_RESUBMISSION => RESUBMISSION_REQUIRED
  }

  function ActionName(action: Action): string {
    match action case APPROVE => "APPROVE" case REJECT => "REJECT" case REQUEST_RESUBMISSION => "REQUEST_RESUBMISSION"
  }

  function ReviewRefused(db: Db, id: int, action: Action, actor: string): Option<Error> {
    if id !in db.cases then Some(NotFound)
    else if db.cases[id].status != SUBMITTED && db.cases[id].status != MANUAL_REVIEW then Some(Conflict)
    else if action == APPROVE && !db.cases[id].screening.Clear? then Some(Conflict)
    else if db.cases[id].createdBy == actor then Some(Conflict)
    else None
  }

  function DecidedCases(db: Db, id: int, action: Action, actor: string): map<int, Case>
    requires id in db.cases
  {
    db.cases[id := db.cases[id].(status := Decided(action), reviewedBy := Some(actor), reviewedAt := Some(db.clock))]
  }

  predicate ApprovedOf(cases: map<int, Case>, customer: int, id: int) {
    id in cases && cases[id].customer == customer && cases[id].status == APPROVED
  }

  /** `a` comes no later than `b` under ORDER BY reviewed_at DESC NULLS LAST, created_at DESC. */
  predicate ListedBefore(a: Case, b: Case) {
    match (a.reviewedAt, b.reviewedAt)
    case (Some(x), Some(y)) => x > y || (x == y && a.createdAt >= b.createdAt)
    case (Some(_), None) => true
    case (None, Some(_)) => false
    case (None, None) => a.createdAt >= b.createdAt
  }

  /** What the SELECT of the customer's latest approved case may return. */
  predicate LatestApproved(cases: map<int, Case>, customer: int, found: Option<int>) {
    match found
    case None => forall id :: id in cases ==> !ApprovedOf(cases, customer, id)
    case Some(x) => ApprovedOf(cases, customer, x) &&
                    forall id :: id in cases && ApprovedOf(cases, customer, id) ==> ListedBefore(cases[x], cases[id])
  }

  /** What an approval copies to the profile; a field the extraction lacks keeps its value there. */
  function VerifiedFields(c: Case): map<string, string> {
    if c.documentType == "" then c.extracted else c.extracted["ID_Type" := c.documentType]
  }

  function ReviewedProfile(p: Profile, c: Case, id: int, action: Action, actor: string,
                           now: int, approved: Option<int>): Profile {
    var status := if approved.Some? then 1 else if action == REJECT then 2 else 0;
    if action == APPROVE then Profile(status, Some(id), Some(actor), Some(now), p.fields + VerifiedFields(c))
    else p.(kycStatus := status)
  }

  function ReviewedOpening(o: Opening, customer: int, id: int, action: Action, approved: Option<int>): Opening {
    if o.customer != customer || o.status == "OPENED" then o
    else Opening(customer,
                 if approved.Some? then "READY_TO_OPEN" else if action == REJECT then "KYC_REJECTED" else "PENDING_KYC",
                 if approved.Some? then approved else Some(id))
  }

  function Review(db: Db, id: int, action: Action, actor: string, approved: Option<int>): Db
    requires id in db.cases
  {
    var c := db.cases[id];
    db.(cases := DecidedCases(db, id, action, actor),
        profiles := if c.customer in db.profiles
                    then db.profiles[c.customer :=
                         ReviewedProfile(db.profiles[c.customer], c, id, action, actor, db.clock, approved)]
                    else db.profiles,
        openings := map o | o in db.openings :: ReviewedOpening(db.openings[o], c.customer, id, action, approved),
        audit := db.audit + [AuditRow(id, ActionName(action), Some(c.status), Decided(action), actor)])
  }

  // ---------- Runs ----------

  datatype Step =
    | CreateStep(id: int, customer: int, documentType: string, key: Option<string>, actor: string)
    | Upload(id: int, role: string, sha256: string)
    | SubmitStep(t: int, attempt: int, id: int, actor: string)
    | SubmitRolledBack(t: int, attempt: int, id: int)   // the first transaction fails after its INSERT
    | FinishStep(t: int, score: real, screening: Screening, extracted: map<string, string>)
    | FailAttemptStep(t: int)
    | FailCaseStep(t: int)
    | Vanish(t: int)                                    // the process stops, or the catch block throws
    | ReviewStep(id: int, action: Action, actor: string, approved: Option<int>)
    | RequestOpening(o: int, customer: int)             // other services
    | CompleteOpening(o: int)

  /** Generated identifiers are fresh; refused transactions change nothing and are no steps. */
  predicate Enabled(db: Db, step: Step) {
    match step
    case CreateStep(id, customer, _, key, _) => id !in db.cases && CreateRefused(db, customer, key).None?
    case Upload(id, role, sha256) => id in db.cases && Document(id, role, sha256) !in db.documents
    case SubmitStep(t, attempt, id, _) => t !in db.threads && attempt !in db.attempts && SubmitRefused(db, id).None?
    case SubmitRolledBack(t, attempt, id) => t !in db.threads && attempt !in db.attempts && SubmitRefused(db, id).None?
    case FinishStep(t, _, screening, _) =>
      t in db.threads && db.threads[t].committed && !db.threads[t].failing && !screening.NotScreened?
    case FailAttemptStep(t) => t in db.threads && !db.threads[t].failing
    case FailCaseStep(t) => t in db.threads && db.threads[t].failing
    case Vanish(t) => t in db.threads
    case ReviewStep(id, action, actor, approved) =>
      ReviewRefused(db, id, action, actor).None? &&
      LatestApproved(DecidedCases(db, id, action, actor), db.cases[id].customer, approved)
    case RequestOpening(o, _) => o !in db.openings
    case CompleteOpening(o) => o in db.openings
  }

  function Effect(db: Db, step: Step): Db
    requires Enabled(db, step)
  {
    match step
    case CreateStep(id, customer, documentType, key, actor) => Create(db, id, customer, documentType, key, actor)
    case Upload(id, role, sha256) => db.(documents := db.documents + {Document(id, role, sha256)})
    case SubmitStep(t, attempt, id, actor) => Submit(db, t, attempt, id, actor)
    case SubmitRolledBack(t, attempt, id) => db.(threads := db.threads[t := Thread(id, attempt, false, false)])
    case FinishStep(t, score, screening, extracted) => Finish(db, t, score, screening, extracted)
    case FailAttemptStep(t) => FailAttempt(db, t)
    case FailCaseStep(t) => FailCase(db, t)
    case Vanish(t) => db.(threads := Without(db.threads, t))
    case ReviewStep(id, action, actor, approved) => Review(db, id, action, actor, approved)
    case RequestOpening(o, customer) => db.(openings := db.openings[o := Opening(customer, "PENDING_KYC", None)])
    case CompleteOpening(o) => db.(openings := db.openings[o := db.openings[o].(status := "OPENED")])
  }

  /** Each transaction has its own, later timestamp. */
  function Next(db: Db, step: Step): Db {
    if Enabled(db, step) then Effect(db, step).(clock := db.clock + 1) else db
  }

  function Run(db: Db, steps: seq<Step>): Db {
    if steps == [] then db else Next(Run(db, steps[..|steps| - 1]), steps[|steps| - 1])
  }

  /** No cases yet, and no profile that claims to be verified. */
  predicate Initial(db: Db) {
    db.cases == map[] && db.attempts == map[] && db.audit == [] && db.threads == map[] &&
    forall m :: m in db.profiles ==> db.profiles[m].kycStatus != 1
  }

  /** Every first transaction of `verify` either fails before its INSERT or commits. */
  predicate CleanSubmits(steps: seq<Step>) {
    forall i :: 0 <= i < |steps| ==> !steps[i].SubmitRolledBack?
  }
}
