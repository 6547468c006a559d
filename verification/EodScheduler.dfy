/** The scheduler service: its dates are ISO texts, its lease and periods live in the database. Every
    method is specified by the functions of `EodLease` and `EodCatchUp` on day numbers. */
module EodScheduler {
  import opened Calendar
  import opened Common
  import opened EodPeriods
  import opened EodLease
  import opened EodCatchUp

  // ---------- Local time and due dates ----------

  /** `parts`: the local date and time of day in the schedule's time zone. */
  datatype LocalTime = LocalTime(date: string, hour: int, minute: int)

  predicate AfterClosure(now: LocalTime, row: ScheduleRow) {
    now.hour * 60 + now.minute >= row.closureHour * 60 + row.closureMinute
  }

  predicate Dated(now: LocalTime) {
    IsDate(now.date) && DayFromYear(100) + 2 <= DayOf(now.date) < DayFromYear(10000) - 1
  }

  function LatestDueDate(now: LocalTime, row: ScheduleRow): string
    requires Dated(now)
  {
    AddDays(now.date, if AfterClosure(now, row) then -1 else -2)
  }

  /** The date part of `nextClosureLocal`. */
  function NextClosureDate(now: LocalTime, row: ScheduleRow): string
    requires Dated(now)
  {
    if !AfterClosure(now, row) then now.date else AddDays(now.date, 1)
  }

  function BusinessDateAtNextClosure(now: LocalTime, row: ScheduleRow): string
    requires Dated(now)
  {
    AddDays(now.date, if !AfterClosure(now, row) then -1 else 0)
  }

  function DueDay(now: LocalTime, row: ScheduleRow): int
    requires Dated(now)
  {
    DayOf(now.date) - if AfterClosure(now, row) then 1 else 2
  }

  /** The three dates the schedule view shows are consecutive: the latest due date, the business
      date the next closure closes, and the local date of that closure. */
  lemma ViewDatesAreConsecutive(now: LocalTime, row: ScheduleRow)
    requires Dated(now)
    ensures Supported(DueDay(now, row)) && InTextRange(DueDay(now, row) + 1) && InTextRange(DueDay(now, row) + 2)
    ensures LatestDueDate(now, row) == TextOf(DueDay(now, row))
    ensures BusinessDateAtNextClosure(now, row) == TextOf(DueDay(now, row) + 1)
    ensures NextClosureDate(now, row) == TextOf(DueDay(now, row) + 2)
  {
    hide AddDays, IsDate, DayOf, TextOf, DayFromYear;
    DueDayRange(now, row);
    AddDaysShifts(now.date, -2);
    AddDaysShifts(now.date, -1);
    AddDaysShifts(now.date, 0);
    AddDaysShifts(now.date, 1);
    TextOfDay(now.date);
  }

  lemma DueDayRange(now: LocalTime, row: ScheduleRow)
    requires Dated(now)
    ensures DueDay(now, row) <= DayOf(now.date) - 1 && Supported(DayOf(now.date)) && Supported(DueDay(now, row))
    ensures InTextRange(DayOf(now.date) - 2) && InTextRange(DayOf(now.date) - 1)
    ensures InTextRange(DayOf(now.date)) && InTextRange(DayOf(now.date) + 1)
  {
    YearsIncrease(0, 100);
  }

  /** Times of day, in minutes: the row's closing time, and now counted from day 0. */
  predicate TimesOfDay(now: LocalTime, row: ScheduleRow) {
    0 <= now.hour < 24 && 0 <= now.minute < 60 && 0 <= row.closureHour < 24 && 0 <= row.closureMinute < 60
  }

  /** A business date is due exactly when the closing time of the day after it has come. */
  lemma DueExactlyWhenClosingTimeHasCome(now: LocalTime, row: ScheduleRow, d: int)
    requires Dated(now) && TimesOfDay(now, row) && InTextRange(d)
    ensures InTextRange(DueDay(now, row)) && LatestDueDate(now, row) == TextOf(DueDay(now, row))
    ensures StringLe(TextOf(d), LatestDueDate(now, row))
            <==> (d + 1) * 1440 + row.closureHour * 60 + row.closureMinute
                 <= DayOf(now.date) * 1440 + now.hour * 60 + now.minute
  {
    hide IsDate, DayOf, TextOf, InTextRange, StringLe, LatestDueDate, Supported;
    ViewDatesAreConsecutive(now, row);
    DueDayRange(now, row);
    SupportedInRange(DueDay(now, row));
    StringOrderIsDayOrder(TextOf(d), TextOf(DueDay(now, row)));
  }

  /** The next closure shown is the first closing time after now, and closes the day before it. */
  lemma NextClosureIsFirstAfterNow(now: LocalTime, row: ScheduleRow)
    requires Dated(now) && TimesOfDay(now, row)
    ensures IsDate(NextClosureDate(now, row)) && IsDate(BusinessDateAtNextClosure(now, row))
    ensures var minutes := DayOf(now.date) * 1440 + now.hour * 60 + now.minute;
            var closing := DayOf(NextClosureDate(now, row)) * 1440 + row.closureHour * 60 + row.closureMinute;
            closing - 1440 <= minutes < closing
    ensures DayOf(BusinessDateAtNextClosure(now, row)) == DayOf(NextClosureDate(now, row)) - 1
  {
    hide IsDate, DayOf, TextOf, InTextRange, NextClosureDate, BusinessDateAtNextClosure, Supported;
    ViewDatesAreConsecutive(now, row);
  }

  // ---------- The schedule view ----------

  predicate TextRows(rows: Rows) {
    forall d :: d in rows ==> InTextRange(d)
  }

  /** `closedThroughDueDate`: the last closed date, whatever the due date, is not before it. */
  function ClosedThroughDueDate(rows: Rows, due: string): bool
    requires IsDate(due) && TextRows(rows)
  {
    match Max(ClosedDays(rows))
    case None => false
    case Some(last) => StringLe(due, TextOf(last))
  }

  /** The view agrees with the catch-up list for every set of rows but one family: the due date is
      not closed although a later date is. */
  lemma ViewAgreesWithCatchUp(rows: Rows, due: string, maxDays: nat)
    requires IsDate(due) && TextRows(rows) && maxDays > 0
    ensures (ClosedThroughDueDate(rows, due) <==> OverdueDays(rows, DayOf(due), maxDays) == [])
            <==> DayOf(due) in ClosedDays(rows) || (forall d :: d in ClosedDays(rows) ==> d <= DayOf(due))
  {
    hide IsDate, DayOf, TextOf, InTextRange, StringLe;
    var n := DayOf(due);
    var last := Max(ClosedDays(rows));
    if last.Some? {
      StringOrderIsDayOrder(due, TextOf(last.value));
    }
    assert forall d :: d in ClosedUpTo(rows, n) <==> d in ClosedDays(rows) && d <= n;
    assert OverdueDays(rows, n, maxDays) == [] <==> n in ClosedDays(rows);
  }

  /** An unbroken history that starts by the due date, or no history, is never in that family. */
  lemma ViewAgreesOnHistory(rows: Rows, first: int, due: string, maxDays: nat)
    requires IsDate(due) && TextRows(rows) && maxDays > 0
    requires ClosedDays(rows) == {} || (UnbrokenFrom(ClosedDays(rows), first) && first <= DayOf(due))
    ensures ClosedThroughDueDate(rows, due) <==> OverdueDays(rows, DayOf(due), maxDays) == []
  {
    hide IsDate, DayOf, TextOf, InTextRange, ClosedThroughDueDate, OverdueDays;
    ViewAgreesWithCatchUp(rows, due, maxDays);
  }

  /** Such a case: day 19724 (2 January 2024) is closed and day 19723, which is due, is not. The view
      says closed through the due date, the catch-up lists it. */
  lemma ViewMissesOpenDueDate()
    ensures InTextRange(19723) && InTextRange(19724)
    ensures var (rows, due) := (map[19724 := CLOSED], TextOf(19723));
            TextRows(rows) && ClosedThroughDueDate(rows, due) && OverdueDays(rows, DayOf(due), 31) == [19723]
  {
    hide IsDate, DayOf, TextOf, StringLe;
    var rows := map[19724 := CLOSED];
    StringOrderIsDayOrder(TextOf(19723), TextOf(19724));
    assert ClosedDays(rows) == {19724} && ClosedUpTo(rows, 19723) == {};
  }

  // ---------- The service ----------

  /** `acquireSchedule` throws at its UPDATE, whether or not that took effect, or at its SELECT. */
  datatype AcquireFault = NoFault | UpdateThrows(applied: bool) | SelectThrows

  /** What one tick meets outside the service: the CURRENT_TIMESTAMP of its statements, the faults
      of acquiring, the clock in a time zone, the active currencies (None: the query throws), the number of currencies
      whose overdue query works, the outcome of each close, and whether the release throws. */
  datatype Env = Env(
    leaseAt: int, confirmAt: int, releaseAt: int,
    acquire: AcquireFault,
    local: string -> LocalTime,
    currencies: Option<seq<string>>,
    listable: nat,
    close: (nat, int) -> Outcome,
    releaseThrows: bool)

  datatype TickResult =
    | Busy
    | DisabledOrLeased
    | Ticked(status: string, latestDueDate: Option<string>, attempted: nat, closed: nat, blocked: nat,
             lastBusinessDate: Option<string>)
    | Rejected

  /** The turns that run: all, or those before the first overdue query that throws. */
  function TurnsRun(env: Env): nat
    requires env.currencies.Some?
  {
    Least(env.listable, |env.currencies.value|)
  }

  function TickPass(periods: Periods, row: ScheduleRow, maxDays: nat, env: Env): Pass
    requires Dated(env.local(row.timezone))
  {
    match env.currencies
    case None => Pass(periods, 0, 0, 0, None)
    case Some(cs) => CatchUp(periods, cs, DueDay(env.local(row.timezone), row), maxDays, env.close, TurnsRun(env))
  }

  /** The schedule row when `acquireSchedule` returns or throws. */
  function AfterAcquire(table: Option<ScheduleRow>, me: string, force: bool, env: Env): Option<ScheduleRow> {
    if env.acquire == UpdateThrows(false) then table else LeaseUpdate(table, me, force, env.leaseAt)
  }

  /** The row is disabled and the poll not forced, or another instance's lease has not run out. */
  predicate NotMine(row: ScheduleRow, me: string, force: bool, now: int) {
    (!force && !row.enabled) ||
    (row.leaseUntil.Some? && row.leaseUntil.value >= now && row.leaseOwner != Some(me))
  }

  /** Every turn ran: no query threw. */
  predicate Finishes(env: Env) {
    env.currencies.Some? && |env.currencies.value| <= env.listable
  }

  function TickStatus(pass: Pass, env: Env): string {
    if Finishes(env) then PassStatus(pass) else "FAILED"
  }

  /** Dates the tick can print. */
  predicate DatedTick(periods: Periods, row: ScheduleRow, env: Env) {
    Dated(env.local(row.timezone)) &&
    (forall c :: c in periods ==> DatedRows(periods[c], DueDay(env.local(row.timezone), row)))
  }

  class EodDatabase {
    var schedule: Option<ScheduleRow>
    var periods: Periods

    constructor (schedule: Option<ScheduleRow>, periods: Periods)
      ensures this.schedule == schedule && this.periods == periods
    {
      this.schedule, this.periods := schedule, periods;
    }
  }

  /** The texts of a list of days. */
  function Texts(days: seq<int>): (r: seq<string>)
    requires forall i :: 0 <= i < |days| ==> InTextRange(days[i])
    ensures |r| == |days| && forall i :: 0 <= i < |days| ==> r[i] == TextOf(days[i])
  {
    seq(|days|, i requires 0 <= i < |days| => TextOf(days[i]))
  }

  function DaysOf(dates: seq<string>): (r: seq<int>)
    requires forall i :: 0 <= i < |dates| ==> IsDate(dates[i])
    ensures |r| == |dates| && forall i :: 0 <= i < |dates| ==> r[i] == DayOf(dates[i])
  {
    seq(|dates|, i requires 0 <= i < |dates| => DayOf(dates[i]))
  }

  /** A date's text and its day, or neither. */
  predicate IsTextOf(text: Option<string>, day: Option<int>) {
    if day.None? then text.None? else InTextRange(day.value) && text == Some(TextOf(day.value))
  }

  /** The rows up to the due day lie in the years where text and day arithmetic agree. */
  predicate DatedRows(rows: Rows, due: int) {
    Supported(due) && InTextRange(due + 1) && forall d :: d in rows && d <= due ==> Supported(d)
  }

  lemma StartInRange(rows: Rows, due: int)
    requires DatedRows(rows, due)
    ensures DayFromYear(100) <= OverdueStart(rows, due) <= due + 1
    ensures forall n :: OverdueStart(rows, due) <= n <= due + 1 ==> InTextRange(n)
  {
    YearsIncrease(0, 100);
    assert forall d :: d in ClosedUpTo(rows, due) ==> d in rows && d <= due;
  }

  class EodSchedulerService {
    const instanceId: string
    const maxDays: nat  // ACCOUNTING_CATCH_UP_MAX_DAYS_PER_TICK, at least 1
    const db: EodDatabase
    var ticking: bool

    constructor (instanceId: string, maxDays: nat, db: EodDatabase)
      ensures this.instanceId == instanceId && this.maxDays == maxDays && this.db == db && !ticking
    {
      this.instanceId, this.maxDays, this.db, ticking := instanceId, maxDays, db, false;
    }

    /** Lists exactly the consecutive overdue days, oldest first, comparing and stepping texts. */
    method OverdueDates(currency: string, latestDueDate: string) returns (dates: seq<string>)
      requires IsDate(latestDueDate) && DatedRows(RowsOf(db.periods, currency), DayOf(latestDueDate))
      ensures forall n :: n in OverdueDays(RowsOf(db.periods, currency), DayOf(latestDueDate), maxDays) ==>
                InTextRange(n)
      ensures dates == Texts(OverdueDays(RowsOf(db.periods, currency), DayOf(latestDueDate), maxDays))
    {
      hide IsDate, DayOf, TextOf, InTextRange, StringLe, AddDays, DayFromYear, ClosedDays;
      ghost var rows := RowsOf(db.periods, currency);
      ghost var due := DayOf(latestDueDate);
      ghost var start := OverdueStart(rows, due);
      StartInRange(rows, due);
      FirstDate(rows, latestDueDate);
      var lastClosed := LastClosed(RowsOf(db.periods, currency), DayOf(latestDueDate));
      var earliestOpen := EarliestOpen(RowsOf(db.periods, currency), DayOf(latestDueDate));
      var date := if lastClosed.Some? then AddDays(TextOf(lastClosed.value), 1)
                  else if earliestOpen.Some? then TextOf(earliestOpen.value) else latestDueDate;
      dates := [];
      StringOrderIsDayOrder(date, latestDueDate);
      while StringLe(date, latestDueDate) && |dates| < maxDays
        invariant |dates| <= maxDays && start + |dates| <= due + 1
        invariant date == TextOf(start + |dates|)
        invariant StringLe(date, latestDueDate) <==> start + |dates| <= due
        invariant forall i :: 0 <= i < |dates| ==> dates[i] == TextOf(start + i)
        decreases maxDays - |dates|
      {
        dates := dates + [date];
        NextDate(start + |dates| - 1, rows, due);
        date := AddDays(date, 1);
        StringOrderIsDayOrder(date, latestDueDate);
      }
      assert |dates| == Least(Backlog(rows, due), maxDays);
    }

    /** One poll. The whole new state is that of `LeaseUpdate`, `CatchUp` and `ReleaseUpdate`; a
        release that throws leaves both the lease and `ticking` behind. */
    method RunCatchUp(force: bool, env: Env) returns (r: TickResult)
      requires var leased := AfterAcquire(db.schedule, instanceId, force, env);
               leased.Some? ==> DatedTick(db.periods, leased.value, env)
      modifies this`ticking, db
      ensures old(ticking) ==> r == Busy && ticking && db.schedule == old(db.schedule) && db.periods == old(db.periods)
      ensures !old(ticking) ==>
        var leased := AfterAcquire(old(db.schedule), instanceId, force, env);
        if !env.acquire.NoFault? then
          && r == Ticked("FAILED", None, 0, 0, 0, None) && !ticking
          && db.schedule == leased && db.periods == old(db.periods)
        else if !LeaseHeld(leased, instanceId, env.confirmAt) then
          r == DisabledOrLeased && !ticking && db.schedule == leased && db.periods == old(db.periods)
        else
          var pass := TickPass(old(db.periods), leased.value, maxDays, env);
          && db.periods == pass.periods
          && ticking == env.releaseThrows
          && db.schedule == (if env.releaseThrows then leased
                             else ReleaseUpdate(leased, instanceId, env.releaseAt, TickStatus(pass, env),
                                                pass.attempted > 0, pass.last))
          && (env.releaseThrows ==> r == Rejected)
          && (!env.releaseThrows ==>
                && r.Ticked? && r.status == TickStatus(pass, env)
                && r.attempted == pass.attempted && r.closed == pass.closed && r.blocked == pass.blocked
                && IsTextOf(r.lastBusinessDate, pass.last)
                && r.latestDueDate == (if !Finishes(env) then None
                                       else Some(LatestDueDate(env.local(leased.value.timezone), leased.value))))
    {
      if ticking {
        return Busy;
      }
      hide IsDate, DayOf, TextOf, InTextRange, IsTextOf, DatedRows, CatchUp,
           LatestDueDate, TickPass, TickStatus, Dated, LeaseHeld, ReleaseUpdate;
      ticking := true;
      var row, threw := AcquireSchedule(force, env);
      if threw {
        ticking := false;
        return Ticked("FAILED", None, 0, 0, 0, None);
      }
      if row.None? {
        ticking := false;
        return DisabledOrLeased;
      }
      var status, due, attempted, closed, blocked, last := CatchUpUnderLease(row.value, env);
      LastDay(last, TickPass(old(db.periods), row.value, maxDays, env).last);
      if env.releaseThrows {
        return Rejected;
      }
      db.schedule := ReleaseUpdate(db.schedule, instanceId, env.releaseAt, status, attempted > 0,
                                   if last.Some? then Some(DayOf(last.value)) else None);
      ticking := false;
      r := Ticked(status, if Finishes(env) then due else None, attempted, closed, blocked, last);
    }

    /** The work between acquiring and releasing, with the status it ends in. */
    method CatchUpUnderLease(row: ScheduleRow, env: Env)
      returns (status: string, due: Option<string>, attempted: nat, closed: nat, blocked: nat, last: Option<string>)
      requires DatedTick(db.periods, row, env)
      modifies db`periods
      ensures var pass := TickPass(old(db.periods), row, maxDays, env);
              && db.periods == pass.periods && status == TickStatus(pass, env)
              && attempted == pass.attempted && closed == pass.closed && blocked == pass.blocked
              && IsTextOf(last, pass.last)
      ensures due == if env.currencies.Some? then Some(LatestDueDate(env.local(row.timezone), row)) else None
    {
      hide IsDate, DayOf, TextOf, InTextRange, DatedRows, CatchUp, LatestDueDate, DueDay, Dated;
      status, due, attempted, closed, blocked, last := "FAILED", None, 0, 0, 0, None;
      if env.currencies.Some? {
        due := Some(LatestDueDate(env.local(row.timezone), row));
        ViewDatesAreConsecutive(env.local(row.timezone), row);
        TickDates(db.periods, row, env);
        attempted, closed, blocked, last := RunTurns(env.currencies.value, due.value, env);
        if Finishes(env) {
          status := if blocked > 0 then (if closed > 0 then "PARTIAL" else "BLOCKED")
                    else if attempted > 0 then "COMPLETED" else "IDLE";
        }
      }
    }

    /** The outer loop: every currency's turn, up to the first overdue query that throws. */
    method RunTurns(currencies: seq<string>, due: string, env: Env)
      returns (attempted: nat, closed: nat, blocked: nat, last: Option<string>)
      requires env.currencies == Some(currencies) && IsDate(due)
      requires forall c :: DatedRows(RowsOf(db.periods, c), DayOf(due))
      modifies db`periods
      ensures var pass := CatchUp(old(db.periods), currencies, DayOf(due), maxDays, env.close, TurnsRun(env));
              && db.periods == pass.periods
              && attempted == pass.attempted && closed == pass.closed && blocked == pass.blocked
              && IsTextOf(last, pass.last)
    {
      hide IsDate, DayOf, TextOf, InTextRange, DatedRows, CurrencyTurn;
      attempted, closed, blocked, last := 0, 0, 0, None;
      ghost var dueDay := DayOf(due);
      var k := 0;
      while k < |currencies| && k < env.listable
        invariant k <= TurnsRun(env)
        invariant forall c :: DatedRows(RowsOf(db.periods, c), dueDay)
        invariant var pass := CatchUp(old(db.periods), currencies, dueDay, maxDays, env.close, k);
                  && db.periods == pass.periods && attempted == pass.attempted && closed == pass.closed
                  && blocked == pass.blocked && IsTextOf(last, pass.last)
      {
        var a, c, b, l := Turn(currencies[k], due, TurnCloses(env.close, k),
                               CatchUp(old(db.periods), currencies, dueDay, maxDays, env.close, k));
        attempted, closed, blocked := attempted + a, closed + c, blocked + b;
        if l.Some? { last := l; }
        k := k + 1;
      }
    }

    /** One currency's turn continues the pass made so far. */
    method Turn(currency: string, due: string, close: int -> Outcome, ghost before: Pass)
      returns (attempted: nat, closed: nat, blocked: nat, last: Option<string>)
      requires IsDate(due) && (forall c :: DatedRows(RowsOf(db.periods, c), DayOf(due)))
      requires before.periods == db.periods
      modifies db`periods
      ensures var pass := CurrencyTurn(before, currency, DayOf(due), maxDays, close);
              && db.periods == pass.periods
              && pass.attempted == before.attempted + attempted && pass.closed == before.closed + closed
              && pass.blocked == before.blocked + blocked
              && IsTextOf(last, if attempted > 0 then pass.last else None)
              && (attempted == 0 ==> pass.last == before.last) && (attempted > 0 ==> last.Some?)
      ensures forall c :: DatedRows(RowsOf(db.periods, c), DayOf(due))
    {
      hide IsDate, DayOf, TextOf, InTextRange, OverdueDays, DatedRows, CloseDates, AfterClose;
      ghost var periods := db.periods;
      var dates := OverdueDates(currency, due);
      TextsDays(OverdueDays(RowsOf(periods, currency), DayOf(due), maxDays));
      attempted, closed, blocked, last := CloseCurrency(currency, dates, close);
      CloseDatesStopsAtFailure(RowsOf(periods, currency), OverdueDays(RowsOf(periods, currency), DayOf(due), maxDays),
                               close);
      LastTried(RowsOf(periods, currency), DayOf(due), maxDays, attempted);
      TurnKeepsDates(before, currency, DayOf(due), maxDays, close);
    }

    /** The UPDATE and the SELECT of `acquireSchedule`. A returned row is owned by this instance, and
        live. Without a fault, none is returned exactly when there is no row, or the row is not to be
        had and not already this instance's, or the lease ran out before the SELECT. */
    method AcquireSchedule(force: bool, env: Env) returns (row: Option<ScheduleRow>, threw: bool)
      modifies db`schedule
      ensures threw <==> !env.acquire.NoFault?
      ensures db.schedule == AfterAcquire(old(db.schedule), instanceId, force, env)
      ensures row.Some? ==> !threw && row == db.schedule && row.value.leaseOwner == Some(instanceId)
                            && row.value.leaseUntil.Some? && env.confirmAt < row.value.leaseUntil.value
      ensures !threw ==>
        (row.None? <==>
          var before := old(db.schedule);
          || before.None?
          || (if NotMine(before.value, instanceId, force, env.leaseAt)
              then before.value.leaseOwner != Some(instanceId) || before.value.leaseUntil.None?
                   || before.value.leaseUntil.value <= env.confirmAt
              else env.leaseAt + 600000 <= env.confirmAt))
      ensures row.Some? && !NotMine(old(db.schedule).value, instanceId, force, env.leaseAt) ==>
        row.value == old(db.schedule).value.(leaseOwner := Some(instanceId), leaseUntil := Some(env.leaseAt + 600000),
                                             lastTickAt := Some(env.leaseAt), lastStatus := Some("RUNNING"))
    {
      if env.acquire != UpdateThrows(false) {
        db.schedule := LeaseUpdate(db.schedule, instanceId, force, env.leaseAt);
      }
      if !env.acquire.NoFault? {
        return None, true;
      }
      row := if LeaseHeld(db.schedule, instanceId, env.confirmAt) then db.schedule else None;
      threw := false;
    }

    /** The inner loop: close one currency's dates oldest first and stop at the first failure. */
    method CloseCurrency(currency: string, dates: seq<string>, close: int -> Outcome)
      returns (attempted: nat, closed: nat, blocked: nat, last: Option<string>)
      requires forall i :: 0 <= i < |dates| ==> IsDate(dates[i])
      modifies db`periods
      ensures var run := CloseDates(RowsOf(old(db.periods), currency), DaysOf(dates), close);
              && attempted == run.attempted && closed == run.closed && blocked == run.blocked
              && attempted <= |dates|
              && db.periods == (if run.attempted == 0 then old(db.periods) else old(db.periods)[currency := run.rows])
              && last == (if run.attempted == 0 then None else Some(dates[run.attempted - 1]))
    {
      hide IsDate, DayOf;
      attempted, closed, blocked, last := 0, 0, 0, None;
      ghost var days := DaysOf(dates);
      ghost var whole := CloseDates(RowsOf(db.periods, currency), days, close);
      var stopped := false;
      while attempted < |dates| && !stopped
        invariant attempted <= |dates| && (stopped ==> attempted > 0)
        invariant db.periods == if attempted == 0 then old(db.periods)
                                else old(db.periods)[currency := RowsOf(db.periods, currency)]
        invariant last == if attempted == 0 then None else Some(dates[attempted - 1])
        invariant stopped ==> whole == DateRun(RowsOf(db.periods, currency), attempted, closed, blocked)
        invariant !stopped ==> (
          var rest := CloseDates(RowsOf(db.periods, currency), days[attempted..], close);
          && blocked == 0 && closed == attempted
          && whole == DateRun(rest.rows, rest.attempted + attempted, rest.closed + closed, rest.blocked))
        decreases |dates| - attempted, !stopped
      {
        var businessDate := dates[attempted];
        attempted := attempted + 1;
        last := Some(businessDate);
        var outcome := close(DayOf(businessDate));
        db.periods := db.periods[currency := AfterClose(RowsOf(db.periods, currency), DayOf(businessDate), outcome)];
        assert days[attempted - 1..][0] == DayOf(businessDate) && days[attempted - 1..][1..] == days[attempted..];
        if outcome.Closed? {
          closed := closed + 1;
        } else {
          blocked := blocked + 1;
          stopped := true;
        }
      }
    }
  }

  /** The text the overdue loop starts from is that of the first overdue day. */
  lemma FirstDate(rows: Rows, latestDueDate: string)
    requires IsDate(latestDueDate) && DatedRows(rows, DayOf(latestDueDate))
    ensures var due := DayOf(latestDueDate);
            var (lastClosed, earliestOpen) := (LastClosed(rows, due), EarliestOpen(rows, due));
            && (lastClosed.Some? ==> InTextRange(lastClosed.value) && IsDate(TextOf(lastClosed.value)))
            && (earliestOpen.Some? ==> InTextRange(earliestOpen.value))
            && InTextRange(OverdueStart(rows, due))
            && TextOf(OverdueStart(rows, due))
               == if lastClosed.Some? then AddDays(TextOf(lastClosed.value), 1)
                  else if earliestOpen.Some? then TextOf(earliestOpen.value) else latestDueDate
  {
    hide TextOf, AddDays, IsDate, DayOf, InTextRange, Supported;
    var due := DayOf(latestDueDate);
    var (lastClosed, earliestOpen) := (LastClosed(rows, due), EarliestOpen(rows, due));
    StartInRange(rows, due);
    TextOfDay(latestDueDate);
    if lastClosed.Some? {
      assert lastClosed.value in ClosedUpTo(rows, due);
      DayAfter(lastClosed.value);
    }
    if earliestOpen.Some? { SupportedInRange(earliestOpen.value); }
  }

  lemma NextDate(n: int, rows: Rows, due: int)
    requires DatedRows(rows, due) && OverdueStart(rows, due) <= n <= due
    ensures InTextRange(n) && InTextRange(n + 1) && AddDays(TextOf(n), 1) == TextOf(n + 1)
  {
    hide TextOf, AddDays, IsDate, DayOf, OverdueStart;
    StartInRange(rows, due);
    AddDaysShifts(TextOf(n), 1);
  }

  lemma DayAfter(n: int)
    requires Supported(n) && InTextRange(n + 1)
    ensures InTextRange(n) && IsDate(TextOf(n)) && AddDays(TextOf(n), 1) == TextOf(n + 1)
  {
    hide AddDays, TextOf, IsDate, DayOf;
    SupportedInRange(n);
    AddDaysShifts(TextOf(n), 1);
  }

  lemma TickDates(periods: Periods, row: ScheduleRow, env: Env)
    requires DatedTick(periods, row, env)
    ensures forall c :: DatedRows(RowsOf(periods, c), DueDay(env.local(row.timezone), row))
  {
    DueDayRange(env.local(row.timezone), row);
  }

  lemma LastDay(text: Option<string>, day: Option<int>)
    requires IsTextOf(text, day)
    ensures text.Some? ==> IsDate(text.value) && day == Some(DayOf(text.value))
    ensures text.None? ==> day.None?
  {
  }

  lemma TextsDays(days: seq<int>)
    requires forall i :: 0 <= i < |days| ==> InTextRange(days[i])
    ensures forall i :: 0 <= i < |days| ==> IsDate(Texts(days)[i])
    ensures DaysOf(Texts(days)) == days
  {
    hide IsDate, DayOf, TextOf, InTextRange;
    var texts := Texts(days);
    forall i | 0 <= i < |days| ensures IsDate(texts[i]) && DayOf(texts[i]) == days[i] {
      assert texts[i] == TextOf(days[i]);
    }
  }

  lemma LastTried(rows: Rows, due: int, maxDays: nat, attempted: nat)
    requires attempted <= |OverdueDays(rows, due, maxDays)|
    ensures attempted > 0 ==>
              OverdueDays(rows, due, maxDays)[attempted - 1] == OverdueStart(rows, due) + attempted - 1
  {
  }

  lemma TurnKeepsDates(pass: Pass, currency: string, due: int, maxDays: nat, close: int -> Outcome)
    requires forall c :: DatedRows(RowsOf(pass.periods, c), due)
    ensures forall c :: DatedRows(RowsOf(CurrencyTurn(pass, currency, due, maxDays, close).periods, c), due)
  {
    hide Supported, InTextRange, OverdueDays, CloseDates, CurrencyTurn;
    var rows := RowsOf(pass.periods, currency);
    var after := CurrencyTurn(pass, currency, due, maxDays, close);
    OverdueSupported(rows, due, maxDays);
    CloseDatesKeepsDates(rows, OverdueDays(rows, due, maxDays), close, due);
    forall c ensures DatedRows(RowsOf(after.periods, c), due) {
      TurnTouchesItsCurrency(pass, currency, due, maxDays, close, c);
      assert DatedRows(RowsOf(pass.periods, c), due);
    }
  }

  lemma OverdueSupported(rows: Rows, due: int, maxDays: nat)
    requires DatedRows(rows, due)
    ensures forall d :: d in OverdueDays(rows, due, maxDays) ==> Supported(d)
  {
    StartInRange(rows, due);
  }

  lemma {:induction false} CloseDatesKeepsDates(rows: Rows, days: seq<int>, close: int -> Outcome, due: int)
    requires DatedRows(rows, due) && forall d :: d in days ==> Supported(d)
    ensures DatedRows(CloseDates(rows, days, close).rows, due)
    decreases |days|
  {
    hide Supported, InTextRange;
    if days != [] {
      assert forall d :: d in days[1..] ==> d in days;
      CloseDatesKeepsDates(AfterClose(rows, days[0], close(days[0])), days[1..], close, due);
    }
  }
}
