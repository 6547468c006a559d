/** `review` locks its own case, but selects the customer's approved cases before it locks the profile.
    Under READ COMMITTED another review of the same customer may commit in between. */
module KycReviewRace {
  import opened Common
  import opened KycModel
  import opened KycSafety
  import opened KycRollback

  /** A review that selected `approved` in state `seen` and commits in the later state `db`; its
      timestamps are those of its start. */
  function CommittedLate(seen: Db, db: Db, id: int, action: Action, actor: string, approved: Option<int>): Db
    requires id in db.cases
  {
    Review(db.(clock := seen.clock), id, action, actor, approved).(clock := db.clock + 1)
  }

  ghost predicate Agrees(db: Db, m: int) {
    m in db.profiles && (db.profiles[m].kycStatus == 1 <==> exists id :: ApprovedOf(db.cases, m, id))
  }

  lemma ReviewedCustomerHasProfile(db: Db, steps: seq<Step>, id: int, action: Action, actor: string)
    requires Initial(db) && CleanSubmits(steps) && ReviewRefused(Run(db, steps), id, action, actor).None?
    ensures Run(db, steps).cases[id].customer in Run(db, steps).profiles
  {
    hide Run, AuditInvariant, ProfileInvariant;
    RunIsSafe(db, steps);
    assert CaseInvariant(Run(db, steps), id);
  }

  lemma SeenIsApproved(db: Db, id: int, action: Action, actor: string, approved: Option<int>)
    requires ReviewRefused(db, id, action, actor).None?
    requires LatestApproved(DecidedCases(db, id, action, actor), db.cases[id].customer, approved)
    ensures db.cases[id].status != APPROVED
    ensures approved.Some? ==> if approved.value == id then action == APPROVE
                               else ApprovedOf(db.cases, db.cases[id].customer, approved.value)
    ensures action == APPROVE ==> approved.Some?
  {
    if action == APPROVE { assert ApprovedOf(DecidedCases(db, id, action, actor), db.cases[id].customer, id); }
  }

  lemma LateStatus(seen: Db, db: Db, id: int, action: Action, actor: string, approved: Option<int>)
    requires id in db.cases && db.cases[id].customer in db.profiles
    requires approved.Some? ==> if approved.value == id then action == APPROVE
                                else ApprovedOf(db.cases, db.cases[id].customer, approved.value)
    requires db.cases[id].status != APPROVED
    requires action == APPROVE ==> approved.Some?
    ensures var m := db.cases[id].customer;
            Agrees(CommittedLate(seen, db, id, action, actor, approved), m)
            <==> action == APPROVE || approved.Some? || forall x :: x in db.cases ==> !ApprovedOf(db.cases, m, x)
  {
    var m := db.cases[id].customer;
    var after := CommittedLate(seen, db, id, action, actor, approved);
    assert forall x :: ApprovedOf(after.cases, m, x) <==>
      (if x == id then action == APPROVE else ApprovedOf(db.cases, m, x));
    assert m in after.profiles && (after.profiles[m].kycStatus == 1 <==> approved.Some?);
    if approved.Some? { assert ApprovedOf(after.cases, m, approved.value); }
  }

  /** KYC_Status still agrees with the customer's cases exactly when the review approves, had seen an
      approved case, or none has been approved by its commit. */
  lemma LateReviewAgreesExactlyWhen(db: Db, steps: seq<Step>, more: seq<Step>, id: int,
                                    action: Action, actor: string, approved: Option<int>)
    requires Initial(db) && CleanSubmits(steps) && CleanSubmits(more)
    requires var seen := Run(db, steps);
             && ReviewRefused(seen, id, action, actor).None?
             && LatestApproved(DecidedCases(seen, id, action, actor), seen.cases[id].customer, approved)
    requires var (seen, t) := (Run(db, steps), Run(db, steps + more)); id in t.cases && t.cases[id] == seen.cases[id]
    ensures var (seen, t) := (Run(db, steps), Run(db, steps + more)); var m := t.cases[id].customer;
            Agrees(CommittedLate(seen, t, id, action, actor, approved), m)
            <==> action == APPROVE || approved.Some? || forall x :: x in t.cases ==> !ApprovedOf(t.cases, m, x)
  {
    hide Run, Initial, CleanSubmits, ReviewRefused, LatestApproved, CommittedLate,
         Invariant, ProfileInvariant, AuditInvariant;
    var (seen, t) := (Run(db, steps), Run(db, steps + more));
    var m := t.cases[id].customer;
    ReviewedCustomerHasProfile(db, steps, id, action, actor);
    ProfilesRemain(db, steps, more, m);
    SeenIsApproved(seen, id, action, actor, approved);
    if approved.Some? && approved.value != id { ApprovedForever(db, steps, more, approved.value); }
    LateStatus(seen, t, id, action, actor, approved);
  }

  /** The race happens: of two reviews of one customer, the rejection that selected first and commits
      last leaves the customer of an approved case at KYC_Status 2. */
  lemma RejectionOverwritesApproval(db: Db, x: int, y: int, checker: string)
    requires x in db.cases && y in db.cases && x != y && db.cases[x].customer == db.cases[y].customer
    requires db.cases[x].status == MANUAL_REVIEW && db.cases[y].status == MANUAL_REVIEW && db.cases[x].screening.Clear?
    requires db.cases[x].createdBy != checker && db.cases[y].createdBy != checker && db.cases[x].customer in db.profiles
    requires forall z :: z in db.cases ==> !ApprovedOf(db.cases, db.cases[x].customer, z)
    ensures ReviewRefused(db, y, REJECT, checker).None?
    ensures LatestApproved(DecidedCases(db, y, REJECT, checker), db.cases[y].customer, None)
    ensures Enabled(db, ReviewStep(x, APPROVE, checker, Some(x)))
    ensures var t := Next(db, ReviewStep(x, APPROVE, checker, Some(x))); var m := db.cases[x].customer;
            && y in t.cases && t.cases[y] == db.cases[y]
            && var after := CommittedLate(db, t, y, REJECT, checker, None);
               ApprovedOf(after.cases, m, x) && m in after.profiles && after.profiles[m].kycStatus == 2
  {
    ApprovesAlone(db, x, checker);
    assert forall z :: z in db.cases && z != y ==> DecidedCases(db, y, REJECT, checker)[z] == db.cases[z];
  }
}
