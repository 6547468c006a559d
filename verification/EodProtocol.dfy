/** Several service instances polling one schedule row. Every database statement and every close is
    one step, so instances interleave at each of them; clocks advance, leases expire, queries fail
    and instances stop for good in between. */
module EodProtocol {
  import opened Common
  import opened EodPeriods
  import opened EodLease

  // ---------- Instances ----------

  /** What a lease holder still has to do: load the currencies, take the next currency's turn, or go
      on closing the days it has listed for one. */
  datatype Work =
    | LoadCurrencies
    | Turns(rest: seq<string>)
    | Closing(currency: string, days: seq<int>, rest: seq<string>)

  /** `grant` numbers the acquiring UPDATE that gave the instance its lease, `until` is that
      lease's end. A stopped instance crashed, or its release failed and left `ticking` set. */
  datatype Phase =
    | Idle
    | Updated(updateForced: bool)
    | Holding(grant: int, until: int, due: int, work: Work)
    | Stopped

  /** `grants` records every acquiring UPDATE that took effect: a history the code does not keep. */
  datatype Grant = Grant(owner: string, at: int)

  datatype State = State(
    clock: int,
    schedule: Option<ScheduleRow>,
    periods: Periods,
    instances: map<string, Phase>,
    grants: seq<Grant>)

  datatype Step =
    | Advance(ms: nat)
    | Start(i: string)                                      // a process boots with a fresh identifier
    | SaveSchedule(enabled: bool, timezone: string, hour: int, minute: int)
    | Acquire(i: string, force: bool, now: int)             // the UPDATE of acquireSchedule
    | Confirm(i: string, now: int, due: int)                // its SELECT, with the due day then computed
    | ConfirmFails(i: string)                               // the SELECT throws: nothing is released
    | Load(i: string, currencies: seq<string>)              // activeCurrencies
    | List(i: string, maxDays: nat)                         // overdueDates for the next currency
    | Close(i: string, outcome: Outcome)                    // runOne on the oldest listed day
    | Abandon(i: string)                                    // a query throws: only the release is left
    | Release(i: string, now: int, status: string, ran: bool, businessDate: Option<int>)
    | Stop(i: string)                                       // crash, or a release that throws

  function PhaseOf(s: State, i: string): Phase {
    if i in s.instances then s.instances[i] else Stopped
  }

  function SetPhase(s: State, i: string, p: Phase): State {
    s.(instances := s.instances[i := p])
  }

  function OwnsRow(s: State, i: string): bool {
    s.schedule.Some? && s.schedule.value.leaseOwner == Some(i)
  }

  /** A statement's CURRENT_TIMESTAMP is when it began, not later than the clock. */
  predicate Enabled(s: State, step: Step) {
    match step
    case Advance(_) => true
    case Start(i) => i !in s.instances
    case SaveSchedule(_, _, _, _) => true
    case Acquire(i, _, now) => PhaseOf(s, i).Idle? && now <= s.clock
    case Confirm(i, now, _) => PhaseOf(s, i).Updated? && now <= s.clock
    case ConfirmFails(i) => PhaseOf(s, i).Updated?
    case Load(i, _) => PhaseOf(s, i).Holding? && PhaseOf(s, i).work.LoadCurrencies?
    case List(i, _) => PhaseOf(s, i).Holding? && PhaseOf(s, i).work.Turns? && PhaseOf(s, i).work.rest != []
    case Close(i, _) => PhaseOf(s, i).Holding? && PhaseOf(s, i).work.Closing? && PhaseOf(s, i).work.days != []
    case Abandon(i) => PhaseOf(s, i).Holding?
    case Release(i, now, _, _, _) => PhaseOf(s, i).Holding? && PhaseOf(s, i).work == Turns([]) && now <= s.clock
    case Stop(i) => i in s.instances
  }

  function AfterSave(table: Option<ScheduleRow>, enabled: bool, timezone: string,
                     hour: int, minute: int): Option<ScheduleRow> {
    match table
    case None => Some(ScheduleRow(enabled, timezone, hour, minute, None, None, None, None, None, None))
    case Some(row) => Some(row.(enabled := enabled, timezone := timezone, closureHour := hour, closureMinute := minute))
  }

  function AfterList(periods: Periods, p: Phase, maxDays: nat): Phase
    requires p.Holding? && p.work.Turns? && p.work.rest != []
  {
    var c := p.work.rest[0];
    p.(work := Closing(c, OverdueDays(RowsOf(periods, c), p.due, maxDays), p.work.rest[1..]))
  }

  /** CLOSED goes on to the next listed day; anything else ends the currency's turn. */
  function AfterOutcome(p: Phase, outcome: Outcome): Phase
    requires p.Holding? && p.work.Closing? && p.work.days != []
  {
    if outcome.Closed? && |p.work.days| > 1 then p.(work := p.work.(days := p.work.days[1..]))
    else p.(work := Turns(p.work.rest))
  }

  /** The effect of a step; one that is not enabled changes nothing. */
  function Next(s: State, step: Step): State {
    if !Enabled(s, step) then s else
    match step
    case Advance(ms) => s.(clock := s.clock + ms)
    case Start(i) => SetPhase(s, i, Idle)
    case SaveSchedule(enabled, tz, h, m) => s.(schedule := AfterSave(s.schedule, enabled, tz, h, m))
    case Acquire(i, force, now) =>
      var s' := SetPhase(s, i, Updated(force)).(schedule := LeaseUpdate(s.schedule, i, force, now));
      if s.schedule.Some? && MayLease(s.schedule.value, i, force, now)
      then s'.(grants := s.grants + [Grant(i, now)]) else s'
    case Confirm(i, now, due) =>
      if LeaseHeld(s.schedule, i, now)
      then SetPhase(s, i, Holding(|s.grants| - 1, s.schedule.value.leaseUntil.value, due, LoadCurrencies))
      else SetPhase(s, i, Idle)
    case ConfirmFails(i) => SetPhase(s, i, Idle)
    case Load(i, currencies) => SetPhase(s, i, s.instances[i].(work := Turns(currencies)))
    case List(i, maxDays) =>
      var p := AfterList(s.periods, s.instances[i], maxDays);
      SetPhase(s, i, if p.work.days == [] then p.(work := Turns(p.work.rest)) else p)
    case Close(i, outcome) =>
      var p := s.instances[i];
      var c, d := p.work.currency, p.work.days[0];
      SetPhase(s, i, AfterOutcome(p, outcome))
        .(periods := s.periods[c := AfterClose(RowsOf(s.periods, c), d, outcome)])
    case Abandon(i) => SetPhase(s, i, s.instances[i].(work := Turns([])))
    case Release(i, now, status, ran, businessDate) =>
      SetPhase(s, i, Idle).(schedule := ReleaseUpdate(s.schedule, i, now, status, ran, businessDate))
    case Stop(i) => SetPhase(s, i, Stopped)
  }

  /** The state after a run; any sequence of steps is one. */
  function Run(s: State, steps: seq<Step>): State {
    if steps == [] then s else Next(Run(s, steps[..|steps| - 1]), steps[|steps| - 1])
  }

  /** Before the first poll: no lease, no instance. */
  predicate Initial(s: State) {
    s.instances == map[] && s.grants == [] &&
    (s.schedule.Some? ==> s.schedule.value.leaseOwner == None && s.schedule.value.leaseUntil == None)
  }

  // ---------- Lease safety ----------

  /** The row's lease is the last grant's, or it has been released. */
  ghost predicate RowInvariant(s: State) {
    (s.schedule.Some? && s.schedule.value.leaseOwner.Some? ==>
      s.grants != [] &&
      s.schedule.value.leaseOwner.value == s.grants[|s.grants| - 1].owner &&
      s.schedule.value.leaseUntil == Some(s.grants[|s.grants| - 1].at + LEASE_MS)) &&
    (s.schedule.Some? && s.schedule.value.leaseOwner.None? ==> s.schedule.value.leaseUntil.None?) &&
    (forall g :: 0 <= g < |s.grants| ==> s.grants[g].at <= s.clock)
  }

  /** A holder has the last grant and still owns the row, or its lease has run out. */
  ghost predicate HolderInvariant(s: State, i: string) {
    var p := PhaseOf(s, i);
    p.Holding? ==>
      && 0 <= p.grant < |s.grants|
      && s.grants[p.grant].owner == i
      && p.until == s.grants[p.grant].at + LEASE_MS
      && (p.grant == |s.grants| - 1 ==> OwnsRow(s, i))
      && (p.grant < |s.grants| - 1 ==> p.until < s.clock)
      && (forall g :: p.grant < g < |s.grants| ==> s.grants[g].owner != i)
  }

  ghost predicate LeaseInvariant(s: State) {
    RowInvariant(s) && forall i :: HolderInvariant(s, i)
  }

  lemma StepKeepsRow(s: State, step: Step)
    requires LeaseInvariant(s)
    ensures RowInvariant(Next(s, step))
  {
  }

  lemma StepKeepsHolder(s: State, step: Step, i: string)
    requires LeaseInvariant(s)
    ensures HolderInvariant(Next(s, step), i)
  {
    assert HolderInvariant(s, i);
  }

  lemma {:induction false} RunKeepsLease(s: State, steps: seq<Step>)
    requires Initial(s)
    ensures LeaseInvariant(Run(s, steps))
  {
    if steps != [] {
      RunKeepsLease(s, steps[..|steps| - 1]);
      NextKeepsLease(Run(s, steps[..|steps| - 1]), steps[|steps| - 1]);
    }
  }

  /** Two instances are between acquiring and releasing at once only if the one that acquired
      earlier did so more than ten minutes ago; forced runs are no exception. */
  lemma LeaseSafety(s: State, steps: seq<Step>, i: string, j: string)
    requires Initial(s) && i != j
    requires PhaseOf(Run(s, steps), i).Holding? && PhaseOf(Run(s, steps), j).Holding?
    ensures var t := Run(s, steps);
            var g, h := PhaseOf(t, i).grant, PhaseOf(t, j).grant;
            && 0 <= g < |t.grants| && 0 <= h < |t.grants| && g != h
            && t.grants[g].owner == i && t.grants[h].owner == j
            && (g < h ==> t.grants[g].at + 600000 == PhaseOf(t, i).until < t.clock)
  {
    RunKeepsLease(s, steps);
    assert HolderInvariant(Run(s, steps), i) && HolderInvariant(Run(s, steps), j);
  }

  /** The same between a holder and an instance that has taken the row but not yet confirmed it. */
  lemma HolderExpiredWhenRowIsTaken(s: State, steps: seq<Step>, i: string, j: string)
    requires Initial(s) && i != j
    requires PhaseOf(Run(s, steps), i).Holding? && OwnsRow(Run(s, steps), j)
    ensures PhaseOf(Run(s, steps), i).until < Run(s, steps).clock
  {
    RunKeepsLease(s, steps);
    assert HolderInvariant(Run(s, steps), i);
  }

  /** A release by a holder that has been overtaken changes nothing in the row. */
  lemma StaleReleaseChangesNothing(s: State, steps: seq<Step>, i: string, now: int,
                                   status: string, ran: bool, businessDate: Option<int>)
    requires Initial(s)
    requires var t := Run(s, steps); PhaseOf(t, i).Holding? && PhaseOf(t, i).grant < |t.grants| - 1
    ensures var t := Run(s, steps); ReleaseUpdate(t.schedule, i, now, status, ran, businessDate) == t.schedule
  {
    RunKeepsLease(s, steps);
    var t := Run(s, steps);
    assert HolderInvariant(t, i);
    assert t.grants[|t.grants| - 1].owner != i;
  }

  /** While a lease has not run out, only its holder's own release or stop ends it. */
  lemma LiveLeaseSurvives(s: State, steps: seq<Step>, i: string, step: Step)
    requires Initial(s)
    requires PhaseOf(Run(s, steps), i).Holding? && Next(Run(s, steps), step).clock <= PhaseOf(Run(s, steps), i).until
    requires !(step.Release? && step.i == i) && !(step.Stop? && step.i == i)
    ensures var t, t' := Run(s, steps), Next(Run(s, steps), step);
            && OwnsRow(t', i) && t'.schedule.value.leaseUntil == Some(PhaseOf(t, i).until)
            && PhaseOf(t', i).Holding? && PhaseOf(t', i).until == PhaseOf(t, i).until
  {
    RunKeepsLease(s, steps);
    LiveLeaseStep(Run(s, steps), i, step);
  }

  lemma HolderOwnsRow(s: State, i: string)
    requires LeaseInvariant(s) && PhaseOf(s, i).Holding? && s.clock <= PhaseOf(s, i).until
    ensures OwnsRow(s, i) && s.schedule.value.leaseUntil == Some(PhaseOf(s, i).until)
  {
    assert HolderInvariant(s, i);
  }

  lemma LiveLeaseStep(s: State, i: string, step: Step)
    requires LeaseInvariant(s)
    requires PhaseOf(s, i).Holding? && Next(s, step).clock <= PhaseOf(s, i).until
    requires !(step.Release? && step.i == i) && !(step.Stop? && step.i == i)
    ensures var t' := Next(s, step);
            && OwnsRow(t', i) && t'.schedule.value.leaseUntil == Some(PhaseOf(s, i).until)
            && PhaseOf(t', i).Holding? && PhaseOf(t', i).until == PhaseOf(s, i).until
  {
    hide HolderInvariant, RowInvariant;
    var t' := Next(s, step);
    assert PhaseOf(t', i).Holding? && PhaseOf(t', i).until == PhaseOf(s, i).until by {
      hide LeaseUpdate, ReleaseUpdate, LeaseHeld, AfterClose, OverdueDays, LeaseInvariant;
    }
    NextKeepsLease(s, step);
    hide Next;
    HolderOwnsRow(t', i);
  }

  lemma NextKeepsLease(s: State, step: Step)
    requires LeaseInvariant(s)
    ensures LeaseInvariant(Next(s, step))
  {
    hide Next, RowInvariant, HolderInvariant;
    var t' := Next(s, step);
    StepKeepsRow(s, step);
    forall i ensures HolderInvariant(t', i) { StepKeepsHolder(s, step, i); }
  }

  /** Saving the settings never touches a lease, nor when and how the last tick ended. */
  lemma SavingKeepsLease(s: State, enabled: bool, timezone: string, hour: int, minute: int)
    ensures var row := Next(s, SaveSchedule(enabled, timezone, hour, minute)).schedule;
            && row.Some? && row.value.enabled == enabled && row.value.timezone == timezone
            && row.value.closureHour == hour && row.value.closureMinute == minute
            && (s.schedule.None? ==> row.value.leaseOwner.None? && row.value.leaseUntil.None?)
            && (s.schedule.Some? ==>
                  && row.value.leaseOwner == s.schedule.value.leaseOwner
                  && row.value.leaseUntil == s.schedule.value.leaseUntil
                  && row.value.lastTickAt == s.schedule.value.lastTickAt
                  && row.value.lastRunAt == s.schedule.value.lastRunAt
                  && row.value.lastBusinessDate == s.schedule.value.lastBusinessDate
                  && row.value.lastStatus == s.schedule.value.lastStatus)
  {
  }

  /** An unforced poll of a disabled schedule gets the lease exactly when the instance still has a
      live lease of its own: the SELECT does not look at `enabled`. */
  lemma DisabledScheduleLeased(s: State, i: string, at: int, now: int, due: int)
    requires PhaseOf(s, i).Idle? && at <= s.clock && now <= s.clock
    requires s.schedule.Some? && !s.schedule.value.enabled
    ensures PhaseOf(Next(Next(s, Acquire(i, false, at)), Confirm(i, now, due)), i).Holding?
            <==> LeaseHeld(s.schedule, i, now)
  {
  }

  /** The schedule row after instance "a" leased it at time 0. */
  const LEASED_ROW := ScheduleRow(true, "Europe/London", 0, 5, Some("a"),
                                  Some(LEASE_MS), Some(0), None, None, Some("RUNNING"))
  const FRESH_ROW := LEASED_ROW.(leaseOwner := None, leaseUntil := None, lastTickAt := None, lastStatus := None)
  const FRESH := State(0, Some(FRESH_ROW), map[], map[], [])

  /** A poll whose SELECT failed, then the schedule is disabled, then the next unforced poll. */
  const LEFTOVER_LEASE := [Start("a"), Acquire("a", false, 0), ConfirmFails("a"),
                           SaveSchedule(false, "Europe/London", 0, 5), Acquire("a", false, 0), Confirm("a", 0, 0)]

  /** That case is reachable: the instance works under the lease its failed poll left behind,
      although the schedule was disabled before it polled again. */
  lemma DisabledScheduleRunsAnyway()
    ensures Initial(FRESH) && !Run(FRESH, LEFTOVER_LEASE[..4]).schedule.value.enabled
    ensures PhaseOf(Run(FRESH, LEFTOVER_LEASE), "a") == Holding(0, LEASE_MS, 0, LoadCurrencies)
  {
    var l := LEFTOVER_LEASE;
    LeaseLeftBehind();
    var s4 := State(0, Some(LEASED_ROW.(enabled := false)), map[], map["a" := Idle], [Grant("a", 0)]);
    hide Run;
    RunStep(FRESH, l[..4], l[4]);
    RunStep(FRESH, l[..5], l[5]);
    assert l[..4] + [l[4]] == l[..5] && l[..5] + [l[5]] == l;
    assert Run(FRESH, l[..5]) == s4.(instances := map["a" := Updated(false)]);
  }

  lemma LeaseLeftBehind()
    ensures Run(FRESH, LEFTOVER_LEASE[..4])
         == State(0, Some(LEASED_ROW.(enabled := false)), map[], map["a" := Idle], [Grant("a", 0)])
  {
    var l := LEFTOVER_LEASE;
    var s2 := State(0, Some(LEASED_ROW), map[], map["a" := Updated(false)], [Grant("a", 0)]);
    var s4 := State(0, Some(LEASED_ROW.(enabled := false)), map[], map["a" := Idle], [Grant("a", 0)]);
    assert Run(FRESH, l[..2]) == s2 by {
      RunStep(FRESH, l[..0], l[0]);
      RunStep(FRESH, l[..1], l[1]);
      assert l[..0] + [l[0]] == l[..1] && l[..1] + [l[1]] == l[..2];
      assert Run(FRESH, l[..1]) == FRESH.(instances := map["a" := Idle]);
    }
    assert Run(FRESH, l[..4]) == s4 by {
      RunStep(FRESH, l[..2], l[2]);
      RunStep(FRESH, l[..3], l[3]);
      assert l[..2] + [l[2]] == l[..3] && l[..3] + [l[3]] == l[..4];
      assert Run(FRESH, l[..3]) == s2.(instances := map["a" := Idle]);
    }
  }

  lemma RunStep(s: State, steps: seq<Step>, step: Step)
    ensures Run(s, steps + [step]) == Next(Run(s, steps), step)
  {
    assert (steps + [step])[..|steps|] == steps;
  }

  // ---------- No gaps ----------

  /** The days an instance has listed continue the closed history. */
  ghost predicate ListContinues(s: State, i: string, c: string, first: int) {
    var p := PhaseOf(s, i);
    p.Holding? ==>
      && first <= p.due
      && (p.work.Closing? && p.work.currency == c ==>
            && (forall k :: 0 <= k < |p.work.days| ==> p.work.days[k] == p.work.days[0] + k)
            && (p.work.days != [] ==> p.work.days[0] - 1 in ClosedDays(RowsOf(s.periods, c))))
  }

  ghost predicate HistoryInvariant(s: State, c: string, first: int) {
    UnbrokenFrom(ClosedDays(RowsOf(s.periods, c)), first) && forall i :: ListContinues(s, i, c, first)
  }

  /** Every due day computed in the run is on or after `first`. */
  predicate DueFrom(steps: seq<Step>, first: int) {
    forall k :: 0 <= k < |steps| && steps[k].Confirm? ==> first <= steps[k].due
  }

  lemma StepOnlyCloses(s: State, step: Step, c: string)
    ensures ClosedDays(RowsOf(s.periods, c)) <= ClosedDays(RowsOf(Next(s, step).periods, c))
    ensures !step.Close? ==> Next(s, step).periods == s.periods
    ensures step.Close? && Enabled(s, step) && PhaseOf(s, step.i).work.currency == c && !step.outcome.NotClosed? ==>
              ClosedDays(RowsOf(Next(s, step).periods, c))
              == ClosedDays(RowsOf(s.periods, c)) + {PhaseOf(s, step.i).work.days[0]}
    ensures !(step.Close? && Enabled(s, step) && PhaseOf(s, step.i).work.currency == c && !step.outcome.NotClosed?) ==>
              ClosedDays(RowsOf(Next(s, step).periods, c)) == ClosedDays(RowsOf(s.periods, c))
  {
    if step.Close? && Enabled(s, step) {
      var p := s.instances[step.i];
      AfterCloseClosedDays(RowsOf(s.periods, p.work.currency), p.work.days[0], step.outcome);
    }
  }

  lemma StepKeepsHistory(s: State, step: Step, c: string, first: int)
    requires HistoryInvariant(s, c, first) && (step.Confirm? ==> first <= step.due)
    ensures UnbrokenFrom(ClosedDays(RowsOf(Next(s, step).periods, c)), first)
  {
    StepOnlyCloses(s, step, c);
    if step.Close? {
      assert ListContinues(s, step.i, c, first);
    }
  }

  lemma StepKeepsList(s: State, step: Step, c: string, first: int, i: string)
    requires HistoryInvariant(s, c, first) && (step.Confirm? ==> first <= step.due)
    ensures ListContinues(Next(s, step), i, c, first)
  {
    assert ListContinues(s, i, c, first);
    StepOnlyCloses(s, step, c);
    if step.List? && step.i == i && Enabled(s, step) && PhaseOf(s, i).work.rest[0] == c {
      OverdueFollowsHistory(RowsOf(s.periods, c), first, PhaseOf(s, i).due);
    }
  }

  /** From an unbroken history, and with no due day before its first day, the closed days of a
      currency stay consecutive in every run: whatever instances, failures, expiries and stops
      interleave, no day is closed over an earlier day that is not. */
  lemma {:induction false} NoGaps(s: State, steps: seq<Step>, c: string, first: int)
    requires s.instances == map[] && UnbrokenFrom(ClosedDays(RowsOf(s.periods, c)), first)
    requires DueFrom(steps, first)
    ensures HistoryInvariant(Run(s, steps), c, first)
    ensures ClosedDays(RowsOf(s.periods, c)) <= ClosedDays(RowsOf(Run(s, steps).periods, c))
  {
    if steps != [] {
      var front, step := steps[..|steps| - 1], steps[|steps| - 1];
      var t := Run(s, front);
      var t' := Next(t, step);
      NoGaps(s, front, c, first);
      StepOnlyCloses(t, step, c);
      StepKeepsHistory(t, step, c, first);
      forall i ensures ListContinues(t', i, c, first) {
        StepKeepsList(t, step, c, first, i);
      }
    }
  }
}
