/** What is left of approval safety when the first transaction of `verify` may also fail after its
    INSERT: `attemptId` is then set, so the catch block fails the case although nothing committed. */
module KycRollback {
  import opened Common
  import opened KycModel

  /** A verification whose first transaction committed keeps its case in PROCESSING or FAILED, and is
      the only such verification of its case. */
  ghost predicate CommittedInvariant(db: Db, t: int) {
    t in db.threads ==>
      && db.threads[t].caseId in db.cases
      && (db.threads[t].committed ==>
            && (db.cases[db.threads[t].caseId].status == PROCESSING || db.cases[db.threads[t].caseId].status == FAILED)
            && forall u :: u in db.threads && u != t && db.threads[u].committed ==>
                 db.threads[u].caseId != db.threads[t].caseId)
  }

  lemma StepKeepsCommitted(db: Db, step: Step, t: int)
    requires forall u :: CommittedInvariant(db, u)
    ensures CommittedInvariant(Next(db, step), t)
  {
    hide NextNumber;
    assert CommittedInvariant(db, t);
    if step.SubmitStep? {
      forall u | u in db.threads && db.threads[u].committed
        ensures db.threads[u].caseId in db.cases
             && (db.cases[db.threads[u].caseId].status == PROCESSING || db.cases[db.threads[u].caseId].status == FAILED)
      {
        assert CommittedInvariant(db, u);
      }
    }
    if step.FinishStep? || step.FailCaseStep? || step.FailAttemptStep? { assert CommittedInvariant(db, step.t); }
  }

  lemma {:induction false} RunKeepsCommitted(db: Db, steps: seq<Step>)
    requires db.threads == map[]
    ensures forall t :: CommittedInvariant(Run(db, steps), t)
  {
    if steps != [] {
      var before, step := Run(db, steps[..|steps| - 1]), steps[|steps| - 1];
      RunKeepsCommitted(db, steps[..|steps| - 1]);
      var after := Next(before, step);
      forall t ensures CommittedInvariant(after, t) { StepKeepsCommitted(before, step, t); }
    }
  }

  /** Exactly when a case leaves APPROVED: at the catch-block write of a verification of that case
      whose first transaction was rolled back after setting `attemptId`. */
  lemma ApprovalLostExactlyWhen(db: Db, steps: seq<Step>, step: Step, id: int)
    requires db.threads == map[]
    requires id in Run(db, steps).cases && Run(db, steps).cases[id].status == APPROVED
    ensures var t := Run(db, steps);
            && id in Next(t, step).cases
            && (Next(t, step).cases[id].status != APPROVED
                <==> step.FailCaseStep? && Enabled(t, step) && !t.threads[step.t].committed
                     && t.threads[step.t].caseId == id)
  {
    hide NextNumber, Run;
    RunKeepsCommitted(db, steps);
    var t := Run(db, steps);
    if step.FinishStep? || step.FailCaseStep? { assert CommittedInvariant(t, step.t); }
  }

  function FourSteps(db: Db, a: Step, b: Step, c: Step, d: Step): Db { Next(Next(Next(Next(db, a), b), c), d) }

  lemma RunOfFour(db: Db, a: Step, b: Step, c: Step, d: Step)
    ensures Run(db, [a, b, c, d]) == FourSteps(db, a, b, c, d)
  {
    hide Next;
    assert [a, b, c, d][..3] == [a, b, c] && [a, b, c][..2] == [a, b] && [a, b][..1] == [a] && [a][..0] == [];
    assert Run(db, [a]) == Next(db, a);
    assert Run(db, [a, b]) == Next(Next(db, a), b);
    assert Run(db, [a, b, c]) == Next(Next(Next(db, a), b), c);
  }

  lemma RunOfTwoMore(db: Db, steps: seq<Step>, a: Step, b: Step)
    ensures Run(db, steps + [a, b]) == Next(Next(Run(db, steps), a), b)
  {
    hide Next;
    assert (steps + [a, b])[..|steps| + 1] == steps + [a] && (steps + [a])[..|steps|] == steps;
  }

  /** The case may be approved next: by `checker`, as the customer's only approval. */
  ghost predicate Approvable(db: Db, id: int, checker: string) {
    && id in db.cases && db.cases[id].customer in db.profiles && db.cases[id].createdBy != checker
    && forall x :: x in db.cases ==> !ApprovedOf(db.cases, db.cases[id].customer, x)
  }

  /** The first submission is rolled back late and its call `t` goes on. */
  lemma RolledBackLate(db: Db, t: int, a: int, id: int)
    requires SubmitRefused(db, id).None? && t !in db.threads && a !in db.attempts
    ensures Next(db, SubmitRolledBack(t, a, id))
         == db.(threads := db.threads[t := Thread(id, a, false, false)], clock := db.clock + 1)
  {
  }

  lemma SubmittedAgain(db: Db, t: int, a: int, id: int, actor: string, checker: string)
    requires SubmitRefused(db, id).None? && t !in db.threads && a !in db.attempts && Approvable(db, id, checker)
    ensures var after := Next(db, SubmitStep(t, a, id, actor));
            && Approvable(after, id, checker) && after.cases[id].customer == db.cases[id].customer
            && after.threads == db.threads[t := Thread(id, a, true, false)]
  {
    hide NextNumber;
    var after := Next(db, SubmitStep(t, a, id, actor));
    assert after.cases == db.cases[id := db.cases[id].(status := PROCESSING)] && after.profiles == db.profiles;
  }

  lemma ScreenedClear(db: Db, t: int, id: int, score: real, name: string, checker: string)
    requires t in db.threads && db.threads[t].committed && !db.threads[t].failing && db.threads[t].caseId == id
    requires Approvable(db, id, checker)
    ensures var after := Next(db, FinishStep(t, score, Clear(name), map[]));
            && Approvable(after, id, checker) && after.cases[id].customer == db.cases[id].customer
            && after.cases[id].status == MANUAL_REVIEW && after.cases[id].screening == Clear(name)
            && after.threads == Without(db.threads, t)
  {
    hide FinalRecommendation;
    var after := Next(db, FinishStep(t, score, Clear(name), map[]));
    assert after.cases.Keys == db.cases.Keys && forall x :: x in db.cases && x != id ==> after.cases[x] == db.cases[x];
  }

  /** Submitted again, screened clear and approved while the rolled-back call `t1` is still running. */
  lemma ApprovedMeanwhile(db: Db, id: int, t1: int, a1: int, t2: int, a2: int,
                          score: real, name: string, checker: string)
    requires SubmitRefused(db, id).None? && Approvable(db, id, checker)
    requires t1 !in db.threads && t2 !in db.threads && t1 != t2 && a1 !in db.attempts && a2 !in db.attempts
    ensures var after := FourSteps(db, SubmitRolledBack(t1, a1, id), SubmitStep(t2, a2, id, db.cases[id].createdBy),
                                   FinishStep(t2, score, Clear(name), map[]),
                                   ReviewStep(id, APPROVE, checker, Some(id)));
            && id in after.cases && after.cases[id].status == APPROVED
            && after.cases[id].customer == db.cases[id].customer
            && after.cases[id].customer in after.profiles && after.profiles[after.cases[id].customer].kycStatus == 1
            && t1 in after.threads && after.threads[t1] == Thread(id, a1, false, false)
            && forall x :: x in after.cases && x != id ==> !ApprovedOf(after.cases, db.cases[id].customer, x)
  {
    hide Next;
    var maker := db.cases[id].createdBy;
    RolledBackLate(db, t1, a1, id);
    var s1 := Next(db, SubmitRolledBack(t1, a1, id));
    SubmittedAgain(s1, t2, a2, id, maker, checker);
    var s2 := Next(s1, SubmitStep(t2, a2, id, maker));
    ScreenedClear(s2, t2, id, score, name, checker);
    ApprovesAlone(Next(s2, FinishStep(t2, score, Clear(name), map[])), id, checker);
  }

  lemma ApprovesAlone(db: Db, id: int, checker: string)
    requires id in db.cases && db.cases[id].status == MANUAL_REVIEW && db.cases[id].screening.Clear?
    requires db.cases[id].createdBy != checker && db.cases[id].customer in db.profiles
    requires forall x :: x in db.cases ==> !ApprovedOf(db.cases, db.cases[id].customer, x)
    ensures Enabled(db, ReviewStep(id, APPROVE, checker, Some(id)))
    ensures var after := Next(db, ReviewStep(id, APPROVE, checker, Some(id)));
            && id in after.cases && after.cases[id].status == APPROVED
            && after.cases[id].customer == db.cases[id].customer
            && db.cases[id].customer in after.profiles && after.profiles[db.cases[id].customer].kycStatus == 1
            && after.threads == db.threads
            && forall x :: x in after.cases && x != id ==> !ApprovedOf(after.cases, db.cases[id].customer, x)
  {
    var cases := DecidedCases(db, id, APPROVE, checker);
    assert forall x :: x in cases && ApprovedOf(cases, cases[id].customer, x) ==> x == id by {
      assert forall x :: x in db.cases && x != id ==> cases[x] == db.cases[x];
    }
  }

  /** From every state in which a case may be submitted and its customer has no approval, this schedule
      leaves an approved case FAILED and the customer's profile verified by no approved case. */
  lemma LateFailureUndoesApproval(db: Db, id: int, t1: int, a1: int, t2: int, a2: int,
                                 score: real, name: string, checker: string)
    requires SubmitRefused(db, id).None? && db.cases[id].customer in db.profiles && checker != db.cases[id].createdBy
    requires forall x :: x in db.cases ==> !ApprovedOf(db.cases, db.cases[id].customer, x)
    requires t1 !in db.threads && t2 !in db.threads && t1 != t2 && a1 !in db.attempts && a2 !in db.attempts
    ensures var steps := [SubmitRolledBack(t1, a1, id), SubmitStep(t2, a2, id, db.cases[id].createdBy),
                          FinishStep(t2, score, Clear(name), map[]), ReviewStep(id, APPROVE, checker, Some(id))];
            var t := Run(db, steps);
            var after := Run(db, steps + [FailAttemptStep(t1), FailCaseStep(t1)]);
            var m := db.cases[id].customer;
            && id in t.cases && t.cases[id].status == APPROVED
            && id in after.cases && after.cases[id].status == FAILED
            && m in after.profiles && after.profiles[m].kycStatus == 1
            && forall x :: x in after.cases ==> !ApprovedOf(after.cases, m, x)
  {
    hide Run, FourSteps;
    ApprovedMeanwhile(db, id, t1, a1, t2, a2, score, name, checker);
    var (a, b) := (SubmitRolledBack(t1, a1, id), SubmitStep(t2, a2, id, db.cases[id].createdBy));
    var (c, d) := (FinishStep(t2, score, Clear(name), map[]), ReviewStep(id, APPROVE, checker, Some(id)));
    RunOfFour(db, a, b, c, d);
    RunOfTwoMore(db, [a, b, c, d], FailAttemptStep(t1), FailCaseStep(t1));
    CatchBlockFails(FourSteps(db, a, b, c, d), t1);
  }

  /** The catch block of a running verification fails its case whatever the case's status. */
  lemma CatchBlockFails(db: Db, t: int)
    requires t in db.threads && !db.threads[t].failing && db.threads[t].caseId in db.cases
    ensures var after := Next(Next(db, FailAttemptStep(t)), FailCaseStep(t));
            && after.profiles == db.profiles && db.threads[t].caseId in after.cases
            && after.cases == db.cases[db.threads[t].caseId := db.cases[db.threads[t].caseId].(status := FAILED)]
  {
  }
}
