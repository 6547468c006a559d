/** The schedule row of one reporting entity and the single-statement updates that lease it.
    Each statement runs atomically with its own CURRENT_TIMESTAMP, in milliseconds. */
module EodLease {
  import opened Common
  import opened EodPeriods

  datatype ScheduleRow = ScheduleRow(
    enabled: bool,
    timezone: string,
    closureHour: int,
    closureMinute: int,
    leaseOwner: Option<string>,
    leaseUntil: Option<int>,
    lastTickAt: Option<int>,
    lastRunAt: Option<int>,
    lastBusinessDate: Option<int>,
    lastStatus: Option<string>)

  const LEASE_MS := 600000  // INTERVAL '10 minutes'

  /** The WHERE clause of the acquiring UPDATE. */
  predicate MayLease(row: ScheduleRow, me: string, force: bool, now: int) {
    (force || row.enabled) &&
    (row.leaseUntil.None? || row.leaseUntil.value < now || row.leaseOwner == Some(me))
  }

  function LeaseUpdate(table: Option<ScheduleRow>, me: string, force: bool, now: int): Option<ScheduleRow> {
    if table.Some? && MayLease(table.value, me, force, now) then
      Some(table.value.(leaseOwner := Some(me), leaseUntil := Some(now + LEASE_MS),
                        lastTickAt := Some(now), lastStatus := Some("RUNNING")))
    else table
  }

  /** The WHERE clause of the SELECT that follows: does it return the row? */
  predicate LeaseHeld(table: Option<ScheduleRow>, me: string, now: int) {
    table.Some? && table.value.leaseOwner == Some(me) &&
    table.value.leaseUntil.Some? && table.value.leaseUntil.value > now
  }

  function ReleaseUpdate(table: Option<ScheduleRow>, me: string, now: int, status: string,
                         ran: bool, businessDate: Option<int>): Option<ScheduleRow>
  {
    if table.Some? && table.value.leaseOwner == Some(me) then
      Some(table.value.(leaseOwner := None, leaseUntil := None, lastTickAt := Some(now),
                        lastRunAt := if ran then Some(now) else table.value.lastRunAt,
                        lastBusinessDate := if businessDate.Some? then businessDate else table.value.lastBusinessDate,
                        lastStatus := Some(status)))
    else table
  }

  /** A tick that took the lease for ten minutes and releases it leaves no lease, its own status, time
      and last date, and the settings as they were. */
  lemma LeaseAndRelease(row: ScheduleRow, me: string, force: bool, leaseAt: int, confirmAt: int, releaseAt: int,
                        status: string, ran: bool, businessDate: Option<int>)
    requires LeaseHeld(LeaseUpdate(Some(row), me, force, leaseAt), me, confirmAt)
    ensures var leased := LeaseUpdate(Some(row), me, force, leaseAt).value;
            && leased.leaseOwner == Some(me) && leased.leaseUntil.Some? && confirmAt < leased.leaseUntil.value
            && (leased == row || leased == row.(leaseOwner := Some(me), leaseUntil := Some(leaseAt + 600000),
                                                lastTickAt := Some(leaseAt), lastStatus := Some("RUNNING")))
    ensures var after := ReleaseUpdate(LeaseUpdate(Some(row), me, force, leaseAt),
                                         me, releaseAt, status, ran, businessDate);
            && after.Some? && after.value.leaseOwner.None? && after.value.leaseUntil.None?
            && after.value.lastTickAt == Some(releaseAt) && after.value.lastStatus == Some(status)
            && after.value.lastRunAt == (if ran then Some(releaseAt) else row.lastRunAt)
            && after.value.lastBusinessDate == (if businessDate.Some? then businessDate else row.lastBusinessDate)
            && after.value.enabled == row.enabled && after.value.timezone == row.timezone
            && after.value.closureHour == row.closureHour && after.value.closureMinute == row.closureMinute
  {
  }
}
