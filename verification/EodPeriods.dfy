/** The accounting periods of one reporting entity and what one catch-up pass does to them. Days
    are the day numbers of `Calendar`; the close procedure is an oracle that marks one day CLOSED
    or fails, and never reopens a day. */
module EodPeriods {

  import opened Common

  datatype PeriodStatus = OPEN | CLOSING | CLOSED | REOPENED | FAILED

  /** One currency's rows of `sw_tbl_accounting_period`, by business date. */
  type Rows = map<int, PeriodStatus>

  /** The rows of every currency; a currency without rows may be absent. */
  type Periods = map<string, Rows>

  function RowsOf(periods: Periods, currency: string): Rows {
    if currency in periods then periods[currency] else map[]
  }

  function ClosedDays(rows: Rows): set<int> {
    set d | d in rows && rows[d] == CLOSED
  }

  // ---------- What one close attempt leaves behind ----------

  /** `runOne` returned CLOSED; or it threw although the procedure had closed the day (a later
      step failed); or it failed and left the day in some other status. */
  datatype Outcome = Closed | ClosedButThrew | NotClosed(left: PeriodStatus)

  function AfterClose(rows: Rows, day: int, outcome: Outcome): Rows {
    match outcome
    case Closed => rows[day := CLOSED]
    case ClosedButThrew => rows[day := CLOSED]
    case NotClosed(left) =>
      if left == CLOSED || (day in rows && rows[day] == CLOSED) then rows else rows[day := left]
  }

  lemma AfterCloseClosedDays(rows: Rows, day: int, outcome: Outcome)
    ensures ClosedDays(AfterClose(rows, day, outcome))
         == if outcome.NotClosed? then ClosedDays(rows) else ClosedDays(rows) + {day}
  {
  }

  // ---------- Overdue days ----------

  function ClosedUpTo(rows: Rows, due: int): set<int> {
    set d | d in ClosedDays(rows) && d <= due
  }

  /** `lastClosed` and `earliestOpen`: both look only at dates up to the due date. */
  function LastClosed(rows: Rows, due: int): Option<int> {
    Max(ClosedUpTo(rows, due))
  }

  function EarliestOpen(rows: Rows, due: int): Option<int> {
    Min(set d | d in rows && rows[d] != CLOSED && d <= due)
  }

  function OverdueStart(rows: Rows, due: int): int {
    match LastClosed(rows, due)
    case Some(last) => last + 1
    case None => match EarliestOpen(rows, due) case Some(open) => open case None => due
  }

  /** Number of overdue days, before the per-tick bound. */
  function Backlog(rows: Rows, due: int): nat {
    var start := OverdueStart(rows, due);
    if start <= due then due - start + 1 else 0
  }

  function Days(start: int, n: nat): (r: seq<int>)
    ensures |r| == n && forall i :: 0 <= i < n ==> r[i] == start + i
  {
    seq(n, i => start + i)
  }

  function Least(a: nat, b: nat): nat { if a <= b then a else b }

  /** What `overdueDates` must list: consecutive days, oldest first, at most `maxDays`. */
  function OverdueDays(rows: Rows, due: int, maxDays: nat): seq<int> {
    Days(OverdueStart(rows, due), Least(Backlog(rows, due), maxDays))
  }

  /** The overdue days follow the last closed one up to the due date; without one they start at the
      earliest open row up to it, and without that at the due date itself. */
  lemma OverdueDaysExactly(rows: Rows, due: int, maxDays: nat)
    ensures var start := OverdueStart(rows, due);
            && (forall d :: d in OverdueDays(rows, due, maxDays) <==> start <= d <= due && d < start + maxDays)
            && (forall i :: 0 <= i < |OverdueDays(rows, due, maxDays)| ==>
                  OverdueDays(rows, due, maxDays)[i] == start + i)
            && (if exists d :: d in rows && rows[d] == CLOSED && d <= due
                then start - 1 in rows && rows[start - 1] == CLOSED
                     && forall d :: d in rows && rows[d] == CLOSED && d <= due ==> d < start <= due + 1
                else if exists d :: d in rows && rows[d] != CLOSED && d <= due
                then start in rows && rows[start] != CLOSED
                     && forall d :: d in rows && rows[d] != CLOSED && d <= due ==> start <= d <= due
                else start == due)
  {
    var start := OverdueStart(rows, due);
    var days := OverdueDays(rows, due, maxDays);
    forall d | start <= d <= due && d < start + maxDays ensures d in days {
      assert days[d - start] == d;
    }
    assert forall d :: d in ClosedUpTo(rows, due) <==> d in rows && rows[d] == CLOSED && d <= due;
    var open := set d | d in rows && rows[d] != CLOSED && d <= due;
    assert forall d :: d in open <==> d in rows && rows[d] != CLOSED && d <= due;
  }

  // ---------- Unbroken histories ----------

  /** The closed days are exactly the consecutive days from `first` to some last one. */
  ghost predicate UnbrokenFrom(closed: set<int>, first: int) {
    first in closed &&
    (forall x :: x in closed ==> first <= x) &&
    (forall x, y :: x in closed && first <= y <= x ==> y in closed)
  }

  lemma ExtendUnbroken(closed: set<int>, first: int, day: int)
    requires UnbrokenFrom(closed, first) && day - 1 in closed
    ensures UnbrokenFrom(closed + {day}, first)
  {
  }

  /** With history up to the due date, the first overdue day follows a closed day. */
  lemma OverdueFollowsHistory(rows: Rows, first: int, due: int)
    requires UnbrokenFrom(ClosedDays(rows), first) && first <= due
    ensures OverdueStart(rows, due) - 1 in ClosedDays(rows)
    ensures Backlog(rows, due) == 0 <==> due in ClosedDays(rows)
  {
    assert first in ClosedUpTo(rows, due);
    assert due in ClosedDays(rows) ==> due in ClosedUpTo(rows, due);
  }

  /** Exactly when closing the first overdue day keeps an unbroken history unbroken. The one failing
      family is a due date before the history's first day, unless that day is the next one back. */
  lemma FirstCloseKeepsHistory(rows: Rows, first: int, due: int)
    requires UnbrokenFrom(ClosedDays(rows), first) && Backlog(rows, due) > 0
    ensures (exists f :: UnbrokenFrom(ClosedDays(rows) + {OverdueStart(rows, due)}, f))
            <==> first <= due || OverdueStart(rows, due) + 1 == first
  {
    var closed, start := ClosedDays(rows), OverdueStart(rows, due);
    if first <= due {
      OverdueFollowsHistory(rows, first, due);
      ExtendUnbroken(closed, first, start);
    } else {
      assert ClosedUpTo(rows, due) == {};
      assert start <= due < first;
      if start + 1 == first {
        assert UnbrokenFrom(closed + {start}, start);
      } else {
        assert start + 1 !in closed + {start} && first in closed + {start} && start in closed + {start};
      }
    }
  }

  /** Such a case: the history starts on day 10 and day 5 is due. Closing it leaves a gap. */
  lemma EarlyDueDateLeavesGap()
    ensures var rows := map[10 := CLOSED];
            && UnbrokenFrom(ClosedDays(rows), 10) && OverdueDays(rows, 5, 31) == [5]
            && !exists f :: UnbrokenFrom(ClosedDays(AfterClose(rows, 5, Closed)), f)
  {
    var rows := map[10 := CLOSED];
    assert ClosedDays(rows) == {10} && ClosedUpTo(rows, 5) == {};
    AfterCloseClosedDays(rows, 5, Closed);
    assert 10 in ClosedDays(rows) + {5} && 5 in ClosedDays(rows) + {5} && 7 !in ClosedDays(rows) + {5};
  }
}
