/** Who may do what to a KYC case, what each decision leaves, and where an approval comes from: the laws
    of the transactions in terms of the tables' own data. */
module KycDecisions {
  import opened Common
  import opened KycModel
  import opened KycSafety

  // ---------- When a transaction is accepted ----------

  ghost predicate HasDocument(db: Db, id: int, role: string) {
    exists d :: d in db.documents && d.caseId == id && d.role == role
  }

  /** A case may be submitted as a draft or for resubmission, with a selfie and the front of its document:
      of a passport the passport, of anything else the identity card's front. */
  lemma SubmitAcceptedExactlyWhen(db: Db, id: int)
    ensures SubmitRefused(db, id).None?
            <==> && id in db.cases
                 && (db.cases[id].status == DRAFT || db.cases[id].status == RESUBMISSION_REQUIRED)
                 && HasDocument(db, id, "SELFIE")
                 && HasDocument(db, id, if db.cases[id].documentType == "PASSPORT" then "PASSPORT" else "ID_FRONT")
    ensures SubmitRefused(db, id) == Some(NotFound) <==> id !in db.cases
    ensures SubmitRefused(db, id) == Some(Conflict)
            <==> id in db.cases && db.cases[id].status != DRAFT && db.cases[id].status != RESUBMISSION_REQUIRED
  {
  }

  /** A case may be reviewed while it awaits review, by anyone but its creator, and approved only on a clear
      screening. */
  lemma ReviewAcceptedExactlyWhen(db: Db, id: int, action: Action, actor: string)
    ensures ReviewRefused(db, id, action, actor).None?
            <==> && id in db.cases
                 && (db.cases[id].status == SUBMITTED || db.cases[id].status == MANUAL_REVIEW)
                 && (action == APPROVE ==> db.cases[id].screening.Clear?)
                 && actor != db.cases[id].createdBy
    ensures ReviewRefused(db, id, action, actor) == Some(NotFound) <==> id !in db.cases
    ensures ReviewRefused(db, id, action, actor) != Some(BadRequest)
  {
  }

  lemma CreateAcceptedExactlyWhen(db: Db, customer: int, key: Option<string>)
    ensures CreateRefused(db, customer, key).None?
            <==> && customer in db.profiles
                 && (key.Some? ==> forall id :: id in db.cases ==> db.cases[id].idempotencyKey != key)
    ensures CreateRefused(db, customer, key) == Some(NotFound) <==> customer !in db.profiles
  {
  }

  // ---------- What a decision leaves ----------

  /** The case, its audit row and the profile after a review, decision by decision. An approval copies the
      extracted fields and the document type over the profile's and keeps the others; a rejection or a
      request for resubmission keeps all, and sets the status only of a customer without an approval. */
  lemma ReviewLeaves(db: Db, id: int, action: Action, actor: string, approved: Option<int>)
    requires Enabled(db, ReviewStep(id, action, actor, approved))
    ensures var (c, after) := (db.cases[id], Next(db, ReviewStep(id, action, actor, approved)));
            && id in after.cases && after.cases[id].reviewedBy == Some(actor)
            && after.cases[id].createdBy == c.createdBy
            && |after.audit| == |db.audit| + 1
            && var row := after.audit[|db.audit|];
               && row.caseId == id && row.previous == Some(c.status) && row.actor == actor
               && (action == APPROVE ==>
                     after.cases[id].status == APPROVED && row.next == APPROVED && row.action == "APPROVE")
               && (action == REJECT ==>
                     after.cases[id].status == REJECTED && row.next == REJECTED && row.action == "REJECT")
               && (action == REQUEST_RESUBMISSION ==>
                     after.cases[id].status == RESUBMISSION_REQUIRED && row.next == RESUBMISSION_REQUIRED
                     && row.action == "REQUEST_RESUBMISSION")
  {
    hide LatestApproved;
  }

  lemma ReviewLeavesProfile(db: Db, id: int, action: Action, actor: string, approved: Option<int>, field: string)
    requires Enabled(db, ReviewStep(id, action, actor, approved)) && db.cases[id].customer in db.profiles
    ensures var (c, after) := (db.cases[id], Next(db, ReviewStep(id, action, actor, approved)));
            && c.customer in after.profiles
            && var (was, now) := (db.profiles[c.customer], after.profiles[c.customer]);
               && now.kycStatus == (if exists x :: x in after.cases && after.cases[x].customer == c.customer
                                                   && after.cases[x].status == APPROVED
                                    then 1 else if action == REJECT then 2 else 0)
               && (action == APPROVE ==> now.kycCase == Some(id) && now.verifiedBy == Some(actor)
                                         && now.verifiedAt == Some(db.clock))
               && (action != APPROVE ==> now.kycCase == was.kycCase && now.verifiedBy == was.verifiedBy
                                         && now.verifiedAt == was.verifiedAt && now.fields == was.fields)
               && (action == APPROVE ==>
                     if field == "ID_Type" && c.documentType != "" then
                       field in now.fields && now.fields[field] == c.documentType
                     else if field in c.extracted then field in now.fields && now.fields[field] == c.extracted[field]
                     else (field in now.fields <==> field in was.fields)
                          && (field in was.fields ==> now.fields[field] == was.fields[field]))
  {
    ReviewAcceptedExactlyWhen(db, id, action, actor);
    var after := Next(db, ReviewStep(id, action, actor, approved));
    assert after.cases == DecidedCases(db, id, action, actor);
    if approved.Some? { assert ApprovedOf(after.cases, db.cases[id].customer, approved.value); }
  }

  // ---------- Rejection is final, resubmission reopens ----------

  lemma StepKeepsRejected(db: Db, step: Step, id: int)
    requires Invariant(db) && !step.SubmitRolledBack? && id in db.cases && db.cases[id].status == REJECTED
    ensures id in Next(db, step).cases && Next(db, step).cases[id] == db.cases[id]
  {
    hide NextNumber, LatestCompleted;
    if step.FinishStep? || step.FailAttemptStep? || step.FailCaseStep? { assert ThreadInvariant(db, step.t); }
  }

  /** A rejected case never changes again, whatever verifications and reviews interleave. */
  lemma {:induction false} RejectedForever(db: Db, steps: seq<Step>, more: seq<Step>, id: int)
    requires Initial(db) && CleanSubmits(steps) && CleanSubmits(more)
    requires id in Run(db, steps).cases && Run(db, steps).cases[id].status == REJECTED
    ensures id in Run(db, steps + more).cases && Run(db, steps + more).cases[id] == Run(db, steps).cases[id]
  {
    if more == [] {
      assert steps + more == steps;
    } else {
      hide Next, Invariant;
      var front := more[..|more| - 1];
      RejectedForever(db, steps, front, id);
      assert (steps + more)[..|steps + more| - 1] == steps + front;
      RunIsSafe(db, steps + front);
      StepKeepsRejected(Run(db, steps + front), more[|more| - 1], id);
    }
  }

  lemma RunSnoc(db: Db, steps: seq<Step>, step: Step)
    ensures Run(db, steps + [step]) == Next(Run(db, steps), step)
  {
    assert (steps + [step])[..|steps|] == steps;
  }

  /** After a rejection, `verify` and `review` refuse the case and it stays as it is in every
      continuation. */
  lemma RejectionIsFinal(db: Db, steps: seq<Step>, more: seq<Step>, id: int, actor: string, approved: Option<int>)
    requires Initial(db) && CleanSubmits(steps) && CleanSubmits(more)
    requires Enabled(Run(db, steps), ReviewStep(id, REJECT, actor, approved))
    ensures var end := Run(db, steps + [ReviewStep(id, REJECT, actor, approved)] + more);
            && SubmitRefused(end, id) == Some(Conflict)
            && (forall action, other :: ReviewRefused(end, id, action, other) == Some(Conflict))
            && end.cases[id].status == REJECTED && end.cases[id].reviewedBy == Some(actor)
  {
    hide Run, Next, Enabled;
    var step := ReviewStep(id, REJECT, actor, approved);
    ReviewLeaves(Run(db, steps), id, REJECT, actor, approved);
    RunSnoc(db, steps, step);
    RejectedForever(db, steps + [step], more, id);
  }

  /** After a request for resubmission the case may be submitted again exactly when its documents are
      there, and not reviewed before. */
  lemma ResubmissionReopens(db: Db, id: int, actor: string, approved: Option<int>)
    requires Enabled(db, ReviewStep(id, REQUEST_RESUBMISSION, actor, approved))
    ensures var after := Next(db, ReviewStep(id, REQUEST_RESUBMISSION, actor, approved));
            && id in db.cases && id in after.cases && after.documents == db.documents
            && (SubmitRefused(after, id).None?
                <==> && HasDocument(db, id, "SELFIE")
                     && HasDocument(db, id, if db.cases[id].documentType == "PASSPORT" then "PASSPORT" else "ID_FRONT"))
            && forall action, other :: ReviewRefused(after, id, action, other) == Some(Conflict)
  {
    hide LatestApproved;
    SubmitAcceptedExactlyWhen(Next(db, ReviewStep(id, REQUEST_RESUBMISSION, actor, approved)), id);
  }

  // ---------- Where a case's contents come from ----------

  /** Step `k` of the run took effect. */
  ghost predicate Took(db: Db, steps: seq<Step>, k: int) {
    0 <= k < |steps| && Enabled(Run(db, steps[..k]), steps[k])
  }

  lemma TookBefore(db: Db, steps: seq<Step>, k: int)
    requires steps != [] && Took(db, steps[..|steps| - 1], k)
    ensures Took(db, steps, k) && steps[k] == steps[..|steps| - 1][k]
  {
    assert steps[..|steps| - 1][..k] == steps[..k];
  }

  ghost predicate CreatedBy(db: Db, steps: seq<Step>, k: int, id: int, c: Case) {
    Took(db, steps, k) && steps[k] == CreateStep(id, c.customer, c.documentType, c.idempotencyKey, c.createdBy)
  }

  lemma CreatedOrKept(db: Db, step: Step, id: int)
    requires id in Next(db, step).cases
    ensures id in db.cases ==>
              var (c, d) := (db.cases[id], Next(db, step).cases[id]);
              c.customer == d.customer && c.documentType == d.documentType && c.createdBy == d.createdBy
              && c.idempotencyKey == d.idempotencyKey
    ensures id !in db.cases ==>
              var d := Next(db, step).cases[id];
              Enabled(db, step) && step == CreateStep(id, d.customer, d.documentType, d.idempotencyKey, d.createdBy)
  {
    hide NextNumber, LatestApproved;
  }

  /** Every case was created by the actor it names, for its customer, document and key. */
  lemma {:induction false} CasesAreCreated(db: Db, steps: seq<Step>, id: int)
    requires db.cases == map[] && id in Run(db, steps).cases
    ensures exists k :: CreatedBy(db, steps, k, id, Run(db, steps).cases[id])
  {
    hide Next, Enabled;
    assert steps != [];
    var front, last := steps[..|steps| - 1], steps[|steps| - 1];
    var before, after := Run(db, front), Run(db, steps);
    CreatedOrKept(before, last, id);
    if id in before.cases {
      CasesAreCreated(db, front, id);
      var k :| CreatedBy(db, front, k, id, before.cases[id]);
      TookBefore(db, steps, k);
      assert CreatedBy(db, steps, k, id, after.cases[id]);
    } else {
      assert CreatedBy(db, steps, |steps| - 1, id, after.cases[id]);
    }
  }

  /** Step `k` decided the case by approval. */
  ghost predicate ApprovedBy(db: Db, steps: seq<Step>, k: int, id: int, actor: string) {
    Took(db, steps, k) && steps[k].ReviewStep? && steps[k].id == id && steps[k].action == APPROVE
    && steps[k].actor == actor
  }

  lemma ApprovedOrKept(db: Db, step: Step, id: int)
    requires id in Next(db, step).cases && Next(db, step).cases[id].status == APPROVED
    ensures var d := Next(db, step).cases[id];
            || (id in db.cases && db.cases[id].status == APPROVED && db.cases[id].reviewedBy == d.reviewedBy)
            || (Enabled(db, step) && step.ReviewStep? && step.id == id && step.action == APPROVE
                && d.reviewedBy == Some(step.actor))
  {
    hide NextNumber, LatestApproved;
  }

  /** Every approved case was approved by the reviewer it names. */
  lemma {:induction false} ApprovalsAreReviews(db: Db, steps: seq<Step>, id: int)
    requires db.cases == map[] && id in Run(db, steps).cases && Run(db, steps).cases[id].status == APPROVED
    ensures Run(db, steps).cases[id].reviewedBy.Some?
    ensures exists k :: ApprovedBy(db, steps, k, id, Run(db, steps).cases[id].reviewedBy.value)
  {
    hide Next, Enabled;
    var front, last := steps[..|steps| - 1], steps[|steps| - 1];
    var before, c := Run(db, front), Run(db, steps).cases[id];
    ApprovedOrKept(before, last, id);
    if id in before.cases && before.cases[id].status == APPROVED && before.cases[id].reviewedBy == c.reviewedBy {
      ApprovalsAreReviews(db, front, id);
      var k :| ApprovedBy(db, front, k, id, c.reviewedBy.value);
      TookBefore(db, steps, k);
      assert ApprovedBy(db, steps, k, id, c.reviewedBy.value);
    } else {
      assert ApprovedBy(db, steps, |steps| - 1, id, c.reviewedBy.value);
    }
  }

  /** Step `k` verified the case with this outcome. */
  ghost predicate VerifiedBy(db: Db, steps: seq<Step>, k: int, id: int, c: Case) {
    && Took(db, steps, k) && steps[k].FinishStep?
    && Run(db, steps[..k]).threads[steps[k].t].caseId == id
    && c.screening == steps[k].screening && c.extracted == steps[k].extracted && c.faceScore == Some(steps[k].score)
  }

  lemma VerifiedOrKept(db: Db, step: Step, id: int)
    requires id in Next(db, step).cases && !Next(db, step).cases[id].screening.NotScreened?
    ensures var d := Next(db, step).cases[id];
            || (id in db.cases && db.cases[id].screening == d.screening && db.cases[id].extracted == d.extracted
                && db.cases[id].faceScore == d.faceScore)
            || (Enabled(db, step) && step.FinishStep? && db.threads[step.t].caseId == id
                && d.screening == step.screening
                && d.extracted == step.extracted && d.faceScore == Some(step.score))
  {
    hide NextNumber, LatestApproved, FinalRecommendation;
  }

  /** Screening, extracted fields and face score of a case are those of one and the same verification. */
  lemma {:induction false} ScreeningsAreVerified(db: Db, steps: seq<Step>, id: int)
    requires db.cases == map[] && id in Run(db, steps).cases && !Run(db, steps).cases[id].screening.NotScreened?
    ensures exists k :: VerifiedBy(db, steps, k, id, Run(db, steps).cases[id])
  {
    hide Next, Enabled;
    var front, last := steps[..|steps| - 1], steps[|steps| - 1];
    var before, c := Run(db, front), Run(db, steps).cases[id];
    VerifiedOrKept(before, last, id);
    if id in before.cases && before.cases[id].screening == c.screening && before.cases[id].extracted == c.extracted
       && before.cases[id].faceScore == c.faceScore {
      ScreeningsAreVerified(db, front, id);
      var k :| VerifiedBy(db, front, k, id, before.cases[id]);
      TookBefore(db, steps, k);
      assert front[..k] == steps[..k];
      assert VerifiedBy(db, steps, k, id, c);
    } else {
      assert steps[..|steps| - 1] == front;
      assert VerifiedBy(db, steps, |steps| - 1, id, c);
    }
  }

  /** Four eyes, over every run: an approved case was created by one actor's call, verified as clear, and
      approved by another actor's call. */
  lemma ApprovalTakesTwoActors(db: Db, steps: seq<Step>, id: int)
    requires Initial(db) && CleanSubmits(steps)
    requires id in Run(db, steps).cases && Run(db, steps).cases[id].status == APPROVED
    ensures var c := Run(db, steps).cases[id];
            exists made, seen, decided ::
              && Took(db, steps, made) && steps[made].CreateStep? && steps[made].id == id
              && VerifiedBy(db, steps, seen, id, c) && steps[seen].screening.Clear?
              && Took(db, steps, decided) && steps[decided].ReviewStep? && steps[decided].id == id
              && steps[decided].action == APPROVE && steps[decided].actor != steps[made].actor
  {
    hide Run, Took, VerifiedBy;
    var c := Run(db, steps).cases[id];
    ApprovalSafety(db, steps, id);
    CasesAreCreated(db, steps, id);
    ScreeningsAreVerified(db, steps, id);
    ApprovalsAreReviews(db, steps, id);
    var made :| CreatedBy(db, steps, made, id, c);
    var seen :| VerifiedBy(db, steps, seen, id, c);
    var decided :| ApprovedBy(db, steps, decided, id, c.reviewedBy.value);
    VerifiedScreening(db, steps, seen, id, c);
  }

  lemma VerifiedScreening(db: Db, steps: seq<Step>, k: int, id: int, c: Case)
    requires VerifiedBy(db, steps, k, id, c)
    ensures 0 <= k < |steps| && steps[k].FinishStep? && steps[k].screening == c.screening
  {
  }

  // ---------- Recommendations, audit rows, keys and numbers ----------

  /** The recommendation follows from the stored screening and face score. */
  ghost predicate RecommendationFits(c: Case) {
    c.recommendation.Some? ==>
      && c.faceScore.Some?
      && (c.recommendation.value == APPROVED <==> c.screening.Clear? && c.faceScore.value >= 60.0)
      && (c.recommendation.value == REJECTED <==> c.screening.Clear? && c.faceScore.value < 40.0)
      && c.recommendation.value in {APPROVED, MANUAL_REVIEW, REJECTED}
  }

  lemma StepKeepsRecommendationFitting(db: Db, step: Step, id: int)
    requires id in db.cases ==> RecommendationFits(db.cases[id])
    ensures id in Next(db, step).cases ==> RecommendationFits(Next(db, step).cases[id])
  {
    hide NextNumber, LatestApproved;
  }

  /** In every run the system recommends approval exactly on a clear screening with a score of 60 or more,
      rejection exactly on a clear one below 40, and a manual review otherwise. */
  lemma {:induction false} RecommendationExactlyWhen(db: Db, steps: seq<Step>, id: int)
    requires db.cases == map[]
    ensures id in Run(db, steps).cases ==> RecommendationFits(Run(db, steps).cases[id])
  {
    hide Next, RecommendationFits;
    if steps != [] {
      RecommendationExactlyWhen(db, steps[..|steps| - 1], id);
      StepKeepsRecommendationFitting(Run(db, steps[..|steps| - 1]), steps[|steps| - 1], id);
    }
  }

  /** The action of an audit row and the change it records belong together. */
  predicate ActionFits(row: AuditRow) {
    && (row.action == "CREATE" <==> row.previous.None?) && (row.previous.None? <==> row.next == DRAFT)
    && (row.action == "SUBMIT" <==> row.next == PROCESSING)
    && (row.action == "SYSTEM_RESULT" <==> row.next == MANUAL_REVIEW)
    && (row.action == "APPROVE" <==> row.next == APPROVED)
    && (row.action == "REJECT" <==> row.next == REJECTED)
    && (row.action == "REQUEST_RESUBMISSION" <==> row.next == RESUBMISSION_REQUIRED)
  }

  lemma StepAddsFittingRow(db: Db, step: Step)
    ensures var audit := Next(db, step).audit;
            audit == db.audit
            || (|audit| == |db.audit| + 1 && audit[..|db.audit|] == db.audit
                && ActionFits(audit[|db.audit|]))
  {
    hide NextNumber, LatestApproved, ReviewRefused, SubmitRefused, CreateRefused;
    if step.ReviewStep? { assert Decided(step.action) in {APPROVED, REJECTED, RESUBMISSION_REQUIRED}; }
  }

  lemma {:induction false} AuditActionsFit(db: Db, steps: seq<Step>)
    requires db.audit == []
    ensures forall i :: 0 <= i < |Run(db, steps).audit| ==> ActionFits(Run(db, steps).audit[i])
  {
    hide Next, ActionFits;
    if steps != [] {
      var before := Run(db, steps[..|steps| - 1]);
      AuditActionsFit(db, steps[..|steps| - 1]);
      StepAddsFittingRow(before, steps[|steps| - 1]);
      var audit := Run(db, steps).audit;
      forall i | 0 <= i < |before.audit| ensures audit[i] == before.audit[i] {
        assert audit[i] == audit[..|before.audit|][i];
      }
    }
  }

  /** No two cases share an idempotency key, and a case's attempts are numbered 1, 2, … without gap. */
  ghost predicate Numbered(db: Db) {
    && (forall x, y :: x in db.cases && y in db.cases && x != y && db.cases[x].idempotencyKey.Some? ==>
          db.cases[x].idempotencyKey != db.cases[y].idempotencyKey)
    && (forall a :: a in db.attempts ==>
          db.attempts[a].number == 1
          || (db.attempts[a].number > 1 && HasAttempt(db.attempts, db.attempts[a].caseId, db.attempts[a].number - 1)))
  }

  ghost predicate HasAttempt(attempts: map<int, Attempt>, id: int, number: int) {
    exists b :: b in attempts && attempts[b].caseId == id && attempts[b].number == number
  }

  lemma NextNumberFollows(attempts: map<int, Attempt>, id: int)
    requires forall a :: a in attempts ==> attempts[a].number >= 1
    ensures NextNumber(attempts, id) == 1
            || (NextNumber(attempts, id) > 1 && HasAttempt(attempts, id, NextNumber(attempts, id) - 1))
  {
    var s := set a | a in attempts && attempts[a].caseId == id :: attempts[a].number;
    if s != {} { assert NextNumber(attempts, id) - 1 in s; }
  }

  lemma AttemptsRemain(db: Db, step: Step)
    ensures forall a :: a in db.attempts ==>
              a in Next(db, step).attempts && Next(db, step).attempts[a].caseId == db.attempts[a].caseId
              && Next(db, step).attempts[a].number == db.attempts[a].number
    ensures forall a :: a in Next(db, step).attempts && a !in db.attempts ==>
              step.SubmitStep? && Next(db, step).attempts[a].caseId == step.id
              && Next(db, step).attempts[a].number == NextNumber(db.attempts, step.id)
  {
    hide NextNumber, LatestApproved;
  }

  lemma KeysStayUnique(db: Db, step: Step)
    requires Numbered(db)
    ensures var after := Next(db, step).cases;
            forall x, y :: x in after && y in after && x != y && after[x].idempotencyKey.Some? ==>
              after[x].idempotencyKey != after[y].idempotencyKey
  {
    hide NextNumber, LatestApproved, HasAttempt;
  }

  lemma StepKeepsNumbered(db: Db, step: Step)
    requires Numbered(db)
    ensures Numbered(Next(db, step))
  {
    KeysStayUnique(db, step);
    AttemptsRemain(db, step);
    hide Next, NextNumber;
    var after := Next(db, step).attempts;
    if step.SubmitStep? { NextNumberFollows(db.attempts, step.id); }
    forall id, n | HasAttempt(db.attempts, id, n) ensures HasAttempt(after, id, n) {
      var b :| b in db.attempts && db.attempts[b].caseId == id && db.attempts[b].number == n;
      assert b in after;
    }
  }

  lemma {:induction false} RunIsNumbered(db: Db, steps: seq<Step>)
    requires Initial(db)
    ensures Numbered(Run(db, steps))
  {
    hide Next;
    if steps != [] {
      hide Numbered;
      RunIsNumbered(db, steps[..|steps| - 1]);
      StepKeepsNumbered(Run(db, steps[..|steps| - 1]), steps[|steps| - 1]);
    }
  }
}
