/** The KYC service over its tables. Each method takes the steps of `KycModel`, so every sequence of calls,
    those of other instances in between included, keeps what all runs there keep. */
module KycService {
  import opened Common
  import opened KycModel
  import opened KycSafety

  predicate FirstListed(s: set<int>, cases: map<int, Case>, x: int)
    requires forall id :: id in s ==> id in cases
  {
    x in s && forall id :: id in s ==> ListedBefore(cases[x], cases[id])
  }

  /** ORDER BY … LIMIT 1 finds a row when one is selected. */
  lemma {:induction false} FirstListedExists(s: set<int>, cases: map<int, Case>)
    requires s != {} && forall id :: id in s ==> id in cases
    ensures exists x :: FirstListed(s, cases, x)
  {
    HasElement(s);
    var x :| x in s;
    var rest := s - {x};
    assert s == rest + {x};
    if rest == {} {
      assert FirstListed(s, cases, x);
    } else {
      FirstListedExists(rest, cases);
      var y :| FirstListed(rest, cases, y);
      assert FirstListed(s, cases, if ListedBefore(cases[x], cases[y]) then x else y);
    }
  }

  lemma StepKeepsValid(db: Db, step: Step)
    requires !step.SubmitRolledBack?
    ensures Safe(db) ==> Safe(Next(db, step))
  {
    hide Next, Safe;
    if Safe(db) { StepKeepsSafe(db, step); }
  }

  /** What the statements of an accepted review leave, table by table, is the reviewing step. */
  lemma AcceptedReview(db: Db, after: Db, id: int, action: Action, actor: string, approved: Option<int>)
    requires ReviewRefused(db, id, action, actor).None?
    requires LatestApproved(DecidedCases(db, id, action, actor), db.cases[id].customer, approved)
    requires after.cases == DecidedCases(db, id, action, actor)
    requires var (m, c) := (db.cases[id].customer, db.cases[id]);
             && after.profiles == (if m !in db.profiles then db.profiles
                  else db.profiles[m := ReviewedProfile(db.profiles[m], c, id, action, actor, db.clock, approved)])
             && after.openings == (map o | o in db.openings :: ReviewedOpening(db.openings[o], m, id, action, approved))
             && after.audit == db.audit + [AuditRow(id, ActionName(action), Some(c.status), Decided(action), actor)]
    requires after.clock == db.clock + 1 && after.attempts == db.attempts && after.threads == db.threads
    requires after.documents == db.documents
    ensures Enabled(db, ReviewStep(id, action, actor, approved))
    ensures after == Next(db, ReviewStep(id, action, actor, approved))
    ensures Safe(db) ==> Safe(after)
  {
    hide Safe, LatestApproved, ReviewedProfile, ReviewedOpening;
    StepKeepsValid(db, ReviewStep(id, action, actor, approved));
  }

  lemma FinishIsNext(db: Db, t: int, score: real, screening: Screening, extracted: map<string, string>)
    requires t in db.threads && db.threads[t].committed && !db.threads[t].failing && !screening.NotScreened?
    ensures var step := FinishStep(t, score, screening, extracted);
            && Next(db, step) == Finish(db, t, score, screening, extracted).(clock := db.clock + 1)
            && (Safe(db) ==> Safe(Next(db, step)))
  {
    hide Safe, Finish;
    StepKeepsValid(db, FinishStep(t, score, screening, extracted));
  }

  /** The outcome of everything `verify` does between its transactions. */
  datatype External = Answered(score: real, screening: Screening, extracted: map<string, string>) | Threw

  class KycService {
    var cases: map<int, Case>
    var attempts: map<int, Attempt>
    var auditRows: seq<AuditRow>
    var profiles: map<int, Profile>
    var openings: map<int, Opening>
    var documents: set<Document>
    var clock: int
    /** The calls of `verify` under way, by any instance of the service. */
    var running: map<int, Thread>

    ghost function View(): Db reads this {
      Db(cases, attempts, auditRows, profiles, openings, documents, running, clock)
    }

    /** What every run keeps, of cases, attempts, running verifications, profiles and audit rows. */
    ghost predicate Valid() reads this {
      Safe(View())
    }

    constructor (profiles: map<int, Profile>, openings: map<int, Opening>, clock: int)
      requires forall m :: m in profiles ==> profiles[m].kycStatus != 1
      ensures Valid() && Initial(View())
      ensures this.profiles == profiles && this.openings == openings && this.clock == clock
    {
      cases, attempts, auditRows, running := map[], map[], [], map[];
      documents := {};
      this.profiles, this.openings, this.clock := profiles, openings, clock;
      new;
      RunIsSafe(View(), []);
    }

    /** An empty idempotency key is stored as NULL. */
    method Create(id: int, customer: int, documentType: string, idempotencyKey: string, actor: string)
      returns (error: Option<Error>)
      requires id !in cases
      modifies this
      ensures old(Valid()) ==> Valid()
      ensures var key := if idempotencyKey == "" then None else Some(idempotencyKey);
              && View() == Next(old(View()), CreateStep(id, customer, documentType, key, actor))
              && error == CreateRefused(old(View()), customer, key)
    {
      hide Safe;
      StepKeepsValid(View(), CreateStep(id, customer, documentType,
                                          if idempotencyKey == "" then None else Some(idempotencyKey), actor));
      if customer !in profiles { return Some(NotFound); }
      var key := if idempotencyKey == "" then None else Some(idempotencyKey);
      if key.Some? && exists other :: other in cases && cases[other].idempotencyKey == key { return Some(Conflict); }
      cases := cases[id := Case(customer, documentType, key, actor, clock, DRAFT, None, None,
                                NotScreened, map[], None, None)];
      Audit(id, "CREATE", None, DRAFT, actor);
      clock := clock + 1;
      return None;
    }

    method Audit(caseId: int, action: string, previous: Option<Status>, next: Status, actor: string)
      modifies this`auditRows
      ensures auditRows == old(auditRows) + [AuditRow(caseId, action, previous, next, actor)]
    {
      auditRows := auditRows + [AuditRow(caseId, action, previous, next, actor)];
    }

    /** Documents join draft and resubmission cases only, as far as this call can see. */
    method UploadDocument(id: int, role: string, sha256: string) returns (error: Option<Error>)
      modifies this
      ensures old(Valid()) ==> Valid()
      ensures error == if id !in old(cases) then Some(NotFound)
                       else if old(cases)[id].status != DRAFT && old(cases)[id].status != RESUBMISSION_REQUIRED
                       then Some(Conflict)
                       else if Document(id, role, sha256) in old(documents) then Some(Conflict) else None
      ensures View() == if error.None? then Next(old(View()), Upload(id, role, sha256)) else old(View())
    {
      hide Safe;
      StepKeepsValid(View(), Upload(id, role, sha256));
      if id !in cases { return Some(NotFound); }
      if cases[id].status != DRAFT && cases[id].status != RESUBMISSION_REQUIRED { return Some(Conflict); }
      if Document(id, role, sha256) in documents { return Some(Conflict); }
      documents := documents + {Document(id, role, sha256)};
      clock := clock + 1;
      return None;
    }

    /** The first transaction of `verify`, as call `t` with attempt row `attempt`. */
    method VerifyBegin(t: int, attempt: int, id: int, actor: string) returns (error: Option<Error>)
      requires t !in running && attempt !in attempts
      modifies this
      ensures old(Valid()) ==> Valid()
      ensures View() == Next(old(View()), SubmitStep(t, attempt, id, actor))
      ensures error == SubmitRefused(old(View()), id)
    {
      hide Safe;
      StepKeepsValid(View(), SubmitStep(t, attempt, id, actor));
      hide NextNumber;
      if id !in cases { return Some(NotFound); }
      var current := cases[id];
      if current.status != DRAFT && current.status != RESUBMISSION_REQUIRED { return Some(Conflict); }
      if !HasRole(documents, id, FrontRole(current.documentType)) || !HasRole(documents, id, "SELFIE") {
        return Some(BadRequest);
      }
      attempts := attempts[attempt := Attempt(id, NextNumber(attempts, id), InProgress, NotScreened)];
      cases := cases[id := current.(status := PROCESSING)];
      Audit(id, "SUBMIT", Some(current.status), PROCESSING, actor);
      running := running[t := Thread(id, attempt, true, false)];
      clock := clock + 1;
      return None;
    }

    /** The second transaction. */
    method VerifyComplete(t: int, score: real, screening: Screening, extracted: map<string, string>)
      requires t in running && running[t].committed && !running[t].failing && !screening.NotScreened?
      modifies this
      ensures old(Valid()) ==> Valid()
      ensures View() == Next(old(View()), FinishStep(t, score, screening, extracted))
    {
      hide Safe, Next;
      FinishIsNext(View(), t, score, screening, extracted);
      var (id, attempt) := (running[t].caseId, running[t].attempt);
      var recommendation := Recommendation(score);
      var finalRecommendation := if screening.Clear? then recommendation else MANUAL_REVIEW;
      if attempt in attempts {
        attempts := attempts[attempt := attempts[attempt].(status := Completed, screening := screening)];
      }
      if id in cases {
        cases := cases[id := cases[id].(status := MANUAL_REVIEW, recommendation := Some(finalRecommendation),
                                        faceScore := Some(score),
                                        extracted := extracted, screening := screening)];
      }
      Audit(id, "SYSTEM_RESULT", Some(PROCESSING), MANUAL_REVIEW, "KYC_SYSTEM");
      running := Without(running, t);
      clock := clock + 1;
    }

    /** The first update of the catch block. */
    method VerifyFailAttempt(t: int)
      requires t in running && !running[t].failing
      modifies this
      ensures old(Valid()) ==> Valid()
      ensures View() == Next(old(View()), FailAttemptStep(t))
    {
      hide Safe;
      StepKeepsValid(View(), FailAttemptStep(t));
      var attempt := running[t].attempt;
      if attempt in attempts { attempts := attempts[attempt := attempts[attempt].(status := Broken)]; }
      running := running[t := running[t].(failing := true)];
      clock := clock + 1;
    }

    /** The second. */
    method VerifyFailCase(t: int)
      requires t in running && running[t].failing
      modifies this
      ensures old(Valid()) ==> Valid()
      ensures View() == Next(old(View()), FailCaseStep(t))
    {
      hide Safe;
      StepKeepsValid(View(), FailCaseStep(t));
      var id := running[t].caseId;
      if id in cases { cases := cases[id := cases[id].(status := FAILED)]; }
      running := Without(running, t);
      clock := clock + 1;
    }

    /** One whole call that nobody disturbs. An answer never carries an empty screening. */
    method Verify(t: int, attempt: int, id: int, actor: string, external: External) returns (error: Option<Error>)
      requires t !in running && attempt !in attempts
      requires external.Answered? ==> !external.screening.NotScreened?
      modifies this
      ensures old(Valid()) ==> Valid()
      ensures error == SubmitRefused(old(View()), id)
      ensures var begun := Next(old(View()), SubmitStep(t, attempt, id, actor));
              View() == if error.Some? then old(View())
                        else if external.Answered?
                        then Next(begun, FinishStep(t, external.score, external.screening, external.extracted))
                        else Next(Next(begun, FailAttemptStep(t)), FailCaseStep(t))
    {
      hide Safe;
      hide NextNumber, FinalRecommendation;
      error := VerifyBegin(t, attempt, id, actor);
      if error.Some? { return; }
      if external.Answered? {
        VerifyComplete(t, external.score, external.screening, external.extracted);
      } else {
        VerifyFailAttempt(t);
        VerifyFailCase(t);
      }
    }

    /** The SELECT of the customer's latest approved case. */
    method FindApproved(customer: int) returns (found: Option<int>)
      ensures LatestApproved(cases, customer, found)
    {
      var approved := set id | id in cases && ApprovedOf(cases, customer, id);
      if approved == {} {
        assert forall id :: id in cases && ApprovedOf(cases, customer, id) ==> id in approved;
        return None;
      }
      FirstListedExists(approved, cases);
      var x :| x in approved && FirstListed(approved, cases, x);
      return Some(x);
    }

    /** The UPDATE of the customer's profile, if there is one. */
    method UpdateProfile(locked: Case, id: int, action: Action, actor: string, approved: Option<int>)
      modifies this`profiles
      ensures var (m, before) := (locked.customer, old(profiles));
              profiles == if m !in before then before
                          else before[m := ReviewedProfile(before[m], locked, id, action, actor, clock, approved)]
    {
      var profileStatus := if approved.Some? then 1 else if action == REJECT then 2 else 0;
      if locked.customer in profiles {
        var p := profiles[locked.customer].(kycStatus := profileStatus);
        if action == APPROVE {
          p := p.(fields := p.fields + VerifiedFields(locked), kycCase := Some(id), verifiedAt := Some(clock),
                  verifiedBy := Some(actor));
        }
        profiles := profiles[locked.customer := p];
      }
    }

    /** The UPDATE of the customer's account requests that are not yet opened. */
    method AlignOpenings(customer: int, id: int, action: Action, approved: Option<int>)
      modifies this`openings
      ensures openings == map o | o in old(openings) ::
        ReviewedOpening(old(openings)[o], customer, id, action, approved)
    {
      var status := if approved.Some? then "READY_TO_OPEN"
                    else if action == REJECT then "KYC_REJECTED" else "PENDING_KYC";
      var caseId := if approved.Some? then approved else Some(id);
      openings := map o | o in openings ::
        if openings[o].customer == customer && openings[o].status != "OPENED"
        then openings[o].(status := status, caseId := caseId)
        else openings[o];
    }

    method ReviewCase(id: int, action: Action, actor: string) returns (error: Option<Error>, approved: Option<int>)
      modifies this
      ensures old(Valid()) ==> Valid()
      ensures error == ReviewRefused(old(View()), id, action, actor)
      ensures error.Some? ==> View() == old(View())
      ensures error.None? ==> Enabled(old(View()), ReviewStep(id, action, actor, approved))
                              && View() == Next(old(View()), ReviewStep(id, action, actor, approved))
    {
      hide Safe, Next, Enabled, LatestApproved, ReviewedProfile, ReviewedOpening;
      ghost var before := View();
      if id !in cases { return Some(NotFound), None; }
      var locked := cases[id];
      if locked.status != SUBMITTED && locked.status != MANUAL_REVIEW { return Some(Conflict), None; }
      if action == APPROVE && !locked.screening.Clear? { return Some(Conflict), None; }
      if locked.createdBy == actor { return Some(Conflict), None; }
      var status := Decided(action);
      cases := cases[id := locked.(status := status, reviewedBy := Some(actor), reviewedAt := Some(clock))];
      approved := FindApproved(locked.customer);
      UpdateProfile(locked, id, action, actor, approved);
      AlignOpenings(locked.customer, id, action, approved);
      Audit(id, ActionName(action), Some(locked.status), status, actor);
      clock := clock + 1;
      AcceptedReview(before, View(), id, action, actor, approved);
      return None, approved;
    }
  }
}
