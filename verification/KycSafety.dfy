/** What holds in every state the KYC transactions can reach when each first transaction of `verify`
    either fails before its INSERT or commits. */
module KycSafety {
  import opened Common
  import opened KycModel

  // ---------- Attempts and running verifications ----------

  /** `a` is the case's completed attempt with the highest number. */
  ghost predicate LatestCompleted(attempts: map<int, Attempt>, id: int, a: int) {
    a in attempts && attempts[a].caseId == id && attempts[a].status == Completed &&
    forall b :: b in attempts && attempts[b].caseId == id && attempts[b].status == Completed ==>
      attempts[b].number <= attempts[a].number
  }

  /** Attempt numbers of a case are distinct, and every attempt belongs to a case. */
  ghost predicate AttemptsInvariant(db: Db) {
    (forall a :: a in db.attempts ==> db.attempts[a].caseId in db.cases) &&
    (forall a, b :: a in db.attempts && b in db.attempts && a != b && db.attempts[a].caseId == db.attempts[b].caseId ==>
      db.attempts[a].number != db.attempts[b].number)
  }

  /** A running verification keeps its case in PROCESSING, alone, and its attempt is the case's
      latest and not completed. */
  ghost predicate ThreadInvariant(db: Db, t: int) {
    t in db.threads ==>
      var th := db.threads[t];
      && th.committed
      && th.caseId in db.cases && db.cases[th.caseId].status == PROCESSING
      && th.attempt in db.attempts && db.attempts[th.attempt].caseId == th.caseId
      && db.attempts[th.attempt].status != Completed
      && (forall a :: a in db.attempts && db.attempts[a].caseId == th.caseId ==>
            db.attempts[a].number <= db.attempts[th.attempt].number)
      && (forall u :: u in db.threads && u != t ==> db.threads[u].caseId != th.caseId)
  }

  ghost predicate CaseInvariant(db: Db, id: int) {
    id in db.cases ==>
      var c := db.cases[id];
      && c.status != SUBMITTED
      && c.customer in db.profiles
      && (c.reviewedAt.Some? ==> c.reviewedAt.value < db.clock)
      && (forall a :: LatestCompleted(db.attempts, id, a) ==> db.attempts[a].screening == c.screening)
      && (c.status == MANUAL_REVIEW || c.status == APPROVED ==> exists a :: LatestCompleted(db.attempts, id, a))
      && (c.status == APPROVED ==>
            c.screening.Clear? && c.reviewedBy.Some? && c.reviewedBy.value != c.createdBy && c.reviewedAt.Some?)
  }

  ghost predicate Invariant(db: Db) {
    AttemptsInvariant(db) && (forall t :: ThreadInvariant(db, t)) && (forall id :: CaseInvariant(db, id))
  }

  lemma NextNumberIsLarger(attempts: map<int, Attempt>, id: int)
    ensures forall a :: a in attempts && attempts[a].caseId == id ==> attempts[a].number < NextNumber(attempts, id)
  {
    var s := set a | a in attempts && attempts[a].caseId == id :: attempts[a].number;
    forall a | a in attempts && attempts[a].caseId == id ensures attempts[a].number < NextNumber(attempts, id) {
      assert attempts[a].number in s;
    }
  }

  lemma StepKeepsAttempts(db: Db, step: Step)
    requires Invariant(db)
    ensures AttemptsInvariant(Next(db, step))
  {
    if step.SubmitStep? { NextNumberIsLarger(db.attempts, step.id); }
  }

  lemma StepKeepsThread(db: Db, step: Step, t: int)
    requires Invariant(db) && !step.SubmitRolledBack?
    ensures ThreadInvariant(Next(db, step), t)
  {
    hide NextNumber, LatestCompleted;
    assert ThreadInvariant(db, t);
    if step.SubmitStep? {
      NextNumberIsLarger(db.attempts, step.id);
      forall u | u in db.threads ensures db.threads[u].caseId in db.cases
                     && db.cases[db.threads[u].caseId].status == PROCESSING
      {
        assert ThreadInvariant(db, u);
      }
    }
    if step.FinishStep? || step.FailAttemptStep? || step.FailCaseStep? || step.Vanish? {
      assert ThreadInvariant(db, step.t);
    }
  }

  /** Adding or changing an attempt that is not completed leaves the latest completed one alone. */
  lemma UnfinishedAttempt(attempts: map<int, Attempt>, x: int, attempt: Attempt, id: int)
    requires attempt.status != Completed && (x in attempts ==> attempts[x].status != Completed)
    ensures forall a :: LatestCompleted(attempts[x := attempt], id, a) <==> LatestCompleted(attempts, id, a)
    ensures !LatestCompleted(attempts, id, x)
  {
    var after := attempts[x := attempt];
    forall a ensures LatestCompleted(after, id, a) <==> LatestCompleted(attempts, id, a) {
      if LatestCompleted(after, id, a) {
        assert forall b :: b in attempts && attempts[b].status == Completed ==> b in after && after[b] == attempts[b];
      }
    }
  }

  function WithCompleted(attempts: map<int, Attempt>, a: int, screening: Screening): map<int, Attempt>
    requires a in attempts
  {
    attempts[a := attempts[a].(status := Completed, screening := screening)]
  }

  /** The attempt that completes has the highest number, so it is its case's latest. */
  lemma FinishedAttempt(db: Db, t: int, screening: Screening, id: int)
    requires Invariant(db) && t in db.threads
    ensures db.threads[t].attempt in db.attempts
    ensures var a := db.threads[t].attempt;
            var after := WithCompleted(db.attempts, a, screening);
            && LatestCompleted(after, db.threads[t].caseId, a)
            && (forall b :: LatestCompleted(after, id, b) ==> if id == db.threads[t].caseId then b == a else b != a)
            && (id != db.threads[t].caseId ==>
                  forall b :: LatestCompleted(after, id, b) <==> LatestCompleted(db.attempts, id, b))
  {
    assert ThreadInvariant(db, t);
    var a := db.threads[t].attempt;
    var after := WithCompleted(db.attempts, a, screening);
    if id != db.threads[t].caseId {
      assert forall x :: x in db.attempts && db.attempts[x].caseId == id ==> after[x] == db.attempts[x];
    }
  }

  lemma NewCaseHasNoAttempt(db: Db, id: int)
    requires AttemptsInvariant(db) && id !in db.cases
    ensures forall a :: !LatestCompleted(db.attempts, id, a)
  {
  }

  lemma StepKeepsCase(db: Db, step: Step, id: int)
    requires Invariant(db) && !step.SubmitRolledBack?
    ensures CaseInvariant(Next(db, step), id)
  {
    hide NextNumber, LatestCompleted;
    assert CaseInvariant(db, id);
    if step.FinishStep? || step.FailAttemptStep? || step.FailCaseStep? { assert ThreadInvariant(db, step.t); }
    if Enabled(db, step) {
      if step.CreateStep? { NewCaseHasNoAttempt(db, step.id); }
      if step.FinishStep? { FinishedAttempt(db, step.t, step.screening, id); }
      if step.SubmitStep? {
        UnfinishedAttempt(db.attempts, step.attempt,
                          Attempt(step.id, NextNumber(db.attempts, step.id), InProgress, NotScreened), id);
      }
      if step.FailAttemptStep? {
        var a := db.threads[step.t].attempt;
        UnfinishedAttempt(db.attempts, a, db.attempts[a].(status := Broken), id);
      }
    }
  }

  // ---------- Profiles ----------

  /** A profile is verified exactly when its customer has an approved case, and then points to the
      one approved last. */
  ghost predicate ProfileInvariant(db: Db, m: int) {
    m in db.profiles ==>
      var p := db.profiles[m];
      && (p.kycStatus == 1 <==> exists id :: ApprovedOf(db.cases, m, id))
      && (forall id :: ApprovedOf(db.cases, m, id) ==>
            && p.kycCase.Some? && ApprovedOf(db.cases, m, p.kycCase.value)
            && db.cases[id].reviewedAt.Some? && db.cases[p.kycCase.value].reviewedAt.Some?
            && (id != p.kycCase.value ==> db.cases[id].reviewedAt.value < db.cases[p.kycCase.value].reviewedAt.value))
  }

  /** Only a review changes which cases are approved, or when. */
  lemma OnlyReviewsApprove(db: Db, step: Step, m: int, id: int)
    requires Invariant(db) && !step.SubmitRolledBack? && !step.ReviewStep?
    ensures ApprovedOf(Next(db, step).cases, m, id) <==> ApprovedOf(db.cases, m, id)
    ensures ApprovedOf(db.cases, m, id) ==> Next(db, step).cases[id] == db.cases[id]
    ensures Next(db, step).profiles == db.profiles
  {
    hide NextNumber, LatestCompleted;
    if step.FinishStep? || step.FailAttemptStep? || step.FailCaseStep? { assert ThreadInvariant(db, step.t); }
  }

  lemma ReviewKeepsProfile(db: Db, step: Step, m: int)
    requires Invariant(db) && ProfileInvariant(db, m) && step.ReviewStep? && Enabled(db, step)
    ensures ProfileInvariant(Next(db, step), m)
  {
    hide NextNumber, LatestCompleted;
    var after := Next(db, step);
    forall x | x in db.cases ensures db.cases[x].reviewedAt.Some? ==> db.cases[x].reviewedAt.value < db.clock {
      assert CaseInvariant(db, x);
    }
    assert CaseInvariant(db, step.id);
    forall x ensures ApprovedOf(after.cases, m, x) <==>
      ApprovedOf(db.cases, m, x) || (x == step.id && step.action == APPROVE && db.cases[x].customer == m) {}
  }

  lemma StepKeepsProfile(db: Db, step: Step, m: int)
    requires Invariant(db) && ProfileInvariant(db, m) && !step.SubmitRolledBack?
    ensures ProfileInvariant(Next(db, step), m)
  {
    if step.ReviewStep? {
      if Enabled(db, step) { ReviewKeepsProfile(db, step, m); }
    } else {
      hide Next, Enabled, Effect;
      forall id ensures (ApprovedOf(Next(db, step).cases, m, id) <==> ApprovedOf(db.cases, m, id))
                     && (ApprovedOf(db.cases, m, id) ==> Next(db, step).cases[id] == db.cases[id])
                     && Next(db, step).profiles == db.profiles {
        OnlyReviewsApprove(db, step, m, id);
      }
    }
  }

  // ---------- Audit ----------

  function Trail(audit: seq<AuditRow>, id: int): seq<AuditRow> {
    if audit == [] then []
    else Trail(audit[..|audit| - 1], id) + if audit[|audit| - 1].caseId == id then [audit[|audit| - 1]] else []
  }

  /** The rows lead from the creation in DRAFT to `status`, each starting where the one before ended. */
  ghost predicate Path(rows: seq<AuditRow>, status: Status) {
    rows != [] && rows[0].previous == None && rows[0].next == DRAFT && rows[|rows| - 1].next == status &&
    forall i, j :: 0 <= i < |rows| && j == i + 1 && j < |rows| ==> rows[j].previous == Some(rows[i].next)
  }

  /** A case's trail replays its status; the catch block writes no audit row, so the trail of a FAILED
      case ends in PROCESSING. */
  ghost predicate AuditInvariant(db: Db, id: int) {
    if id in db.cases
    then Path(Trail(db.audit, id), if db.cases[id].status == FAILED then PROCESSING else db.cases[id].status)
    else Trail(db.audit, id) == []
  }

  lemma TrailAppend(audit: seq<AuditRow>, row: AuditRow, id: int)
    ensures Trail(audit + [row], id) == Trail(audit, id) + if row.caseId == id then [row] else []
  {
    assert (audit + [row])[..|audit|] == audit;
  }

  lemma PathExtends(rows: seq<AuditRow>, status: Status, row: AuditRow)
    requires Path(rows, status) && row.previous == Some(status)
    ensures Path(rows + [row], row.next)
  {
  }

  lemma NewPath(row: AuditRow)
    requires row.previous == None && row.next == DRAFT
    ensures Path([] + [row], DRAFT)
  {
  }

  lemma StepKeepsAudit(db: Db, step: Step, id: int)
    requires Invariant(db) && AuditInvariant(db, id) && !step.SubmitRolledBack?
    ensures AuditInvariant(Next(db, step), id)
  {
    hide NextNumber, LatestCompleted, Path, Trail;
    if step.FinishStep? || step.FailAttemptStep? || step.FailCaseStep? { assert ThreadInvariant(db, step.t); }
    var after := Next(db, step);
    if |after.audit| > |db.audit| {
      var row := after.audit[|db.audit|];
      assert after.audit == db.audit + [row];
      TrailAppend(db.audit, row, id);
      assert Trail(db.audit, id) + [] == Trail(db.audit, id);
      if row.caseId == id && id in db.cases {
        PathExtends(Trail(db.audit, id), db.cases[id].status, row);
      }
      if step.CreateStep? && step.id == id { NewPath(row); }
    }
  }

  // ---------- Every run ----------

  ghost predicate Safe(db: Db) {
    Invariant(db) && (forall m :: ProfileInvariant(db, m)) && (forall id :: AuditInvariant(db, id))
  }

  lemma StepKeepsSafe(db: Db, step: Step)
    requires Safe(db) && !step.SubmitRolledBack?
    ensures Safe(Next(db, step))
  {
    hide Next, AttemptsInvariant, ThreadInvariant, CaseInvariant, ProfileInvariant, AuditInvariant;
    var after := Next(db, step);
    StepKeepsAttempts(db, step);
    forall t ensures ThreadInvariant(after, t) { StepKeepsThread(db, step, t); }
    forall id ensures CaseInvariant(after, id) { StepKeepsCase(db, step, id); }
    forall m ensures ProfileInvariant(after, m) { StepKeepsProfile(db, step, m); }
    forall id ensures AuditInvariant(after, id) { StepKeepsAudit(db, step, id); }
  }

  lemma {:induction false} RunIsSafe(db: Db, steps: seq<Step>)
    requires Initial(db) && CleanSubmits(steps)
    ensures Safe(Run(db, steps))
  {
    if steps != [] {
      RunIsSafe(db, steps[..|steps| - 1]);
      StepKeepsSafe(Run(db, steps[..|steps| - 1]), steps[|steps| - 1]);
    }
  }

  /** Approval safety: an approved case carries a clear screening, the one its latest completed
      attempt stored, and was decided by someone other than its creator. */
  lemma ApprovalSafety(db: Db, steps: seq<Step>, id: int)
    requires Initial(db) && CleanSubmits(steps)
    requires id in Run(db, steps).cases && Run(db, steps).cases[id].status == APPROVED
    ensures var t := Run(db, steps); var c := t.cases[id];
            && c.screening.Clear? && c.reviewedBy.Some? && c.reviewedBy.value != c.createdBy
            && (exists a :: LatestCompleted(t.attempts, id, a))
            && (forall a :: LatestCompleted(t.attempts, id, a) ==> t.attempts[a].screening == c.screening)
            && (forall a, b :: LatestCompleted(t.attempts, id, a) && LatestCompleted(t.attempts, id, b) ==> a == b)
  {
    RunIsSafe(db, steps);
    var t := Run(db, steps);
    assert CaseInvariant(t, id);
    forall a, b | LatestCompleted(t.attempts, id, a) && LatestCompleted(t.attempts, id, b) ensures a == b {
      assert t.attempts[a].number == t.attempts[b].number;
    }
  }

  lemma StepKeepsApproved(db: Db, step: Step, id: int)
    requires Invariant(db) && !step.SubmitRolledBack? && id in db.cases && db.cases[id].status == APPROVED
    ensures id in Next(db, step).cases && Next(db, step).cases[id] == db.cases[id]
  {
    hide NextNumber, LatestCompleted;
    if step.FinishStep? || step.FailAttemptStep? || step.FailCaseStep? { assert ThreadInvariant(db, step.t); }
  }

  /** An approved case never changes again, whatever verifications and reviews interleave. */
  lemma {:induction false} ApprovedForever(db: Db, steps: seq<Step>, more: seq<Step>, id: int)
    requires Initial(db) && CleanSubmits(steps) && CleanSubmits(more)
    requires id in Run(db, steps).cases && Run(db, steps).cases[id].status == APPROVED
    ensures id in Run(db, steps + more).cases && Run(db, steps + more).cases[id] == Run(db, steps).cases[id]
  {
    if more == [] {
      assert steps + more == steps;
    } else {
      var front := more[..|more| - 1];
      ApprovedForever(db, steps, front, id);
      assert (steps + more)[..|steps + more| - 1] == steps + front;
      RunIsSafe(db, steps + front);
      StepKeepsApproved(Run(db, steps + front), more[|more| - 1], id);
    }
  }

  /** Profile agreement in every state: KYC_Status is 1 exactly when the customer has an approved case,
      and KYC_Case_ID is then the case approved last. */
  lemma ProfileAgreement(db: Db, steps: seq<Step>, m: int)
    requires Initial(db) && CleanSubmits(steps) && m in Run(db, steps).profiles
    ensures var t := Run(db, steps); var p := t.profiles[m];
            && (p.kycStatus == 1 <==> exists id :: ApprovedOf(t.cases, m, id))
            && (p.kycStatus == 1 ==> p.kycCase.Some? && ApprovedOf(t.cases, m, p.kycCase.value)
                                     && forall id :: ApprovedOf(t.cases, m, id) && id != p.kycCase.value ==>
                                          t.cases[id].reviewedAt.Some? && t.cases[p.kycCase.value].reviewedAt.Some?
                                          && t.cases[id].reviewedAt.value < t.cases[p.kycCase.value].reviewedAt.value)
  {
    RunIsSafe(db, steps);
    assert ProfileInvariant(Run(db, steps), m);
  }

  lemma StepKeepsProfileRow(db: Db, step: Step, m: int)
    requires m in db.profiles
    ensures m in Next(db, step).profiles
  {
  }

  lemma {:induction false} ProfilesRemain(db: Db, steps: seq<Step>, more: seq<Step>, m: int)
    requires m in Run(db, steps).profiles
    ensures m in Run(db, steps + more).profiles
    decreases more
  {
    if more == [] {
      assert steps + more == steps;
    } else {
      hide Next;
      ProfilesRemain(db, steps, more[..|more| - 1], m);
      assert (steps + more)[..|steps + more| - 1] == steps + more[..|more| - 1];
      StepKeepsProfileRow(Run(db, steps + more[..|more| - 1]), more[|more| - 1], m);
    }
  }

  /** A verified profile is never demoted: later rejections leave KYC_Status at 1. */
  lemma NeverDemoted(db: Db, steps: seq<Step>, more: seq<Step>, m: int)
    requires Initial(db) && CleanSubmits(steps) && CleanSubmits(more)
    requires m in Run(db, steps).profiles && Run(db, steps).profiles[m].kycStatus == 1
    ensures m in Run(db, steps + more).profiles && Run(db, steps + more).profiles[m].kycStatus == 1
  {
    ProfileAgreement(db, steps, m);
    var id :| ApprovedOf(Run(db, steps).cases, m, id);
    ApprovedForever(db, steps, more, id);
    ProfilesRemain(db, steps, more, m);
    assert ApprovedOf(Run(db, steps + more).cases, m, id);
    ProfileAgreement(db, steps + more, m);
  }

  /** A review leaves every unopened account request of the customer pointing to the case the profile
      points to if the customer is approved, and otherwise to the reviewed case. */
  lemma ReviewAlignsOpenings(db: Db, steps: seq<Step>, step: Step, o: int)
    requires Initial(db) && CleanSubmits(steps) && step.ReviewStep? && Enabled(Run(db, steps), step)
    requires var t := Run(db, steps);
             o in t.openings && t.openings[o].status != "OPENED" && t.openings[o].customer == t.cases[step.id].customer
    ensures var t := Run(db, steps); var after := Next(t, step); var m := t.cases[step.id].customer;
            && m in after.profiles && o in after.openings
            && (after.profiles[m].kycStatus == 1 ==>
                  after.openings[o] == Opening(m, "READY_TO_OPEN", after.profiles[m].kycCase))
            && (after.profiles[m].kycStatus != 1 ==>
                  after.openings[o] == Opening(m, if step.action == REJECT then "KYC_REJECTED" else "PENDING_KYC",
                                              Some(step.id)))
  {
    RunIsSafe(db, steps);
    var t := Run(db, steps);
    assert CaseInvariant(t, step.id);
    var m := t.cases[step.id].customer;
    StepKeepsProfile(t, step, m);
    var after := Next(t, step);
    assert ProfileInvariant(after, m);
    if step.approved.Some? {
      assert ApprovedOf(after.cases, m, step.approved.value);
    }
  }

  /** Audit replay: the trail of every case leads from DRAFT, row by row, to its status, or to
      PROCESSING when the case is FAILED. */
  lemma AuditReplay(db: Db, steps: seq<Step>, id: int)
    requires Initial(db) && CleanSubmits(steps) && id in Run(db, steps).cases
    ensures var t := Run(db, steps);
            Path(Trail(t.audit, id), if t.cases[id].status == FAILED then PROCESSING else t.cases[id].status)
  {
    RunIsSafe(db, steps);
    assert AuditInvariant(Run(db, steps), id);
  }

  lemma StepKeepsRecommendation(db: Db, step: Step, id: int)
    requires id in db.cases ==> (db.cases[id].recommendation in {Some(APPROVED), Some(REJECTED)} ==>
               db.cases[id].screening.Clear?)
    ensures id in Next(db, step).cases ==>
      (Next(db, step).cases[id].recommendation in {Some(APPROVED), Some(REJECTED)} ==>
       Next(db, step).cases[id].screening.Clear?)
  {
    hide NextNumber;
  }

  /** The system recommends a decision only for a case whose stored screening is clear; this needs no
      assumption on how first transactions fail. */
  lemma {:induction false} RecommendationNeedsClear(db: Db, steps: seq<Step>, id: int)
    requires Initial(db) && id in Run(db, steps).cases
    requires Run(db, steps).cases[id].recommendation in {Some(APPROVED), Some(REJECTED)}
    ensures Run(db, steps).cases[id].screening.Clear?
  {
    if steps != [] {
      hide Next;
      var before := Run(db, steps[..|steps| - 1]);
      if id in before.cases && before.cases[id].recommendation in {Some(APPROVED), Some(REJECTED)} {
        RecommendationNeedsClear(db, steps[..|steps| - 1], id);
      }
      StepKeepsRecommendation(before, steps[|steps| - 1], id);
    }
  }
}
