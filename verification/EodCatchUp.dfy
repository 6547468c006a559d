/** One catch-up pass over the active currencies as a function of the period rows, the due day and
    the close outcomes, and how far passes get. */
module EodCatchUp {
  import opened Common
  import opened EodPeriods

  datatype DateRun = DateRun(rows: Rows, attempted: nat, closed: nat, blocked: nat)

  /** Close the days in order and stop at the first that is not CLOSED. */
  function CloseDates(rows: Rows, days: seq<int>, close: int -> Outcome): DateRun
    decreases |days|
  {
    if days == [] then DateRun(rows, 0, 0, 0)
    else
      var after := AfterClose(rows, days[0], close(days[0]));
      if close(days[0]).Closed? then
        var rest := CloseDates(after, days[1..], close);
        DateRun(rest.rows, rest.attempted + 1, rest.closed + 1, rest.blocked)
      else DateRun(after, 1, 0, 1)
  }

  datatype Pass = Pass(periods: Periods, attempted: nat, closed: nat, blocked: nat, last: Option<int>)

  /** One currency's turn: read its overdue days, then close them. */
  function CurrencyTurn(pass: Pass, currency: string, due: int, maxDays: nat, close: int -> Outcome): Pass {
    var rows := RowsOf(pass.periods, currency);
    var run := CloseDates(rows, OverdueDays(rows, due, maxDays), close);
    if run.attempted == 0 then pass
    else Pass(pass.periods[currency := run.rows], pass.attempted + run.attempted, pass.closed + run.closed,
              pass.blocked + run.blocked, Some(OverdueStart(rows, due) + run.attempted - 1))
  }

  function TurnCloses(close: (nat, int) -> Outcome, k: nat): int -> Outcome {
    d => close(k, d)
  }

  /** The pass after the turns of the first `n` currencies. `close(k, d)` is the outcome of closing
      day `d` in the turn of currency number `k`. */
  function CatchUp(periods: Periods, currencies: seq<string>, due: int, maxDays: nat,
                   close: (nat, int) -> Outcome, n: nat): Pass
    requires n <= |currencies|
  {
    if n == 0 then Pass(periods, 0, 0, 0, None)
    else CurrencyTurn(CatchUp(periods, currencies, due, maxDays, close, n - 1),
                      currencies[n - 1], due, maxDays, TurnCloses(close, n - 1))
  }

  function PassStatus(pass: Pass): string {
    if pass.blocked > 0 then (if pass.closed > 0 then "PARTIAL" else "BLOCKED")
    else if pass.attempted > 0 then "COMPLETED" else "IDLE"
  }

  ghost predicate Distinct(currencies: seq<string>) {
    forall i, j :: 0 <= i < j < |currencies| ==> currencies[i] != currencies[j]
  }

  /** The days tried are the closed ones and at most one blocked one, the first that failed. */
  lemma {:induction false} CloseDatesStopsAtFailure(rows: Rows, days: seq<int>, close: int -> Outcome)
    ensures var run := CloseDates(rows, days, close);
            && run.attempted == run.closed + run.blocked <= |days|
            && (forall i :: 0 <= i < run.closed ==> close(days[i]).Closed?)
            && (run.blocked == 0 <==> run.closed == |days|)
            && (run.blocked > 0 ==> run.blocked == 1 && !close(days[run.closed]).Closed?)
            && (forall i :: 0 <= i < run.closed ==> days[i] in ClosedDays(run.rows))
            && ClosedDays(rows) <= ClosedDays(run.rows)
            && (forall d :: d in ClosedDays(run.rows) ==> d in ClosedDays(rows) || d in days[..run.attempted])
    decreases |days|
  {
    if days != [] {
      var o := close(days[0]);
      AfterCloseClosedDays(rows, days[0], o);
      if o.Closed? {
        var after := AfterClose(rows, days[0], o);
        CloseDatesStopsAtFailure(after, days[1..], close);
        var run := CloseDates(rows, days, close);
        assert days[..run.attempted] == [days[0]] + days[1..][..run.attempted - 1];
        assert days[0] in ClosedDays(after);
        forall i | 0 <= i < run.closed ensures close(days[i]).Closed? && days[i] in ClosedDays(run.rows) {
          if i > 0 { assert days[i] == days[1..][i - 1]; }
        }
      }
    }
  }

  lemma Distribute(n: int, k: int)
    ensures n * k == (n - 1) * k + k
  {
  }

  /** A pass counts a closed or a blocked attempt each time, and blocks each currency at most once. */
  lemma {:induction false} PassCounts(periods: Periods, currencies: seq<string>, due: int, maxDays: nat,
                                      close: (nat, int) -> Outcome, n: nat)
    requires n <= |currencies|
    ensures var pass := CatchUp(periods, currencies, due, maxDays, close, n);
            && pass.attempted == pass.closed + pass.blocked
            && pass.blocked <= n && pass.attempted <= n * maxDays
            && (pass.last.Some? <==> pass.attempted > 0)
            && (PassStatus(pass) == "COMPLETED" <==> pass.closed == pass.attempted > 0)
            && (PassStatus(pass) == "PARTIAL" <==> 0 < pass.closed < pass.attempted)
            && (PassStatus(pass) == "BLOCKED" <==> pass.closed == 0 < pass.attempted)
            && (PassStatus(pass) == "IDLE" <==> pass.attempted == 0)
  {
    if n > 0 {
      hide CurrencyTurn;
      PassCounts(periods, currencies, due, maxDays, close, n - 1);
      TurnCounts(CatchUp(periods, currencies, due, maxDays, close, n - 1),
                 currencies[n - 1], due, maxDays, TurnCloses(close, n - 1));
      Distribute(n, maxDays);
    }
  }

  lemma TurnCounts(pass: Pass, currency: string, due: int, maxDays: nat, close: int -> Outcome)
    ensures var next := CurrencyTurn(pass, currency, due, maxDays, close);
            && next.attempted - pass.attempted == (next.closed - pass.closed) + (next.blocked - pass.blocked)
            && pass.attempted <= next.attempted <= pass.attempted + maxDays
            && pass.closed <= next.closed && pass.blocked <= next.blocked <= pass.blocked + 1
            && (next.last.Some? <==> pass.last.Some? || next.attempted > pass.attempted)
  {
    var rows := RowsOf(pass.periods, currency);
    CloseDatesStopsAtFailure(rows, OverdueDays(rows, due, maxDays), close);
    hide CloseDates, RowsOf;
  }

  lemma TurnTouchesItsCurrency(pass: Pass, currency: string, due: int, maxDays: nat, close: int -> Outcome, c: string)
    ensures var rows := RowsOf(pass.periods, c);
            RowsOf(CurrencyTurn(pass, currency, due, maxDays, close).periods, c)
            == if c == currency then CloseDates(rows, OverdueDays(rows, due, maxDays), close).rows else rows
  {
    if c == currency {
      var rows := RowsOf(pass.periods, c);
      NoAttemptNoChange(rows, OverdueDays(rows, due, maxDays), close);
    }
  }

  lemma NoAttemptNoChange(rows: Rows, days: seq<int>, close: int -> Outcome)
    ensures CloseDates(rows, days, close).attempted == 0 ==> CloseDates(rows, days, close).rows == rows
  {
  }

  /** Each currency's rows after a pass depend on its own rows and closes alone: no currency slows,
      blocks or otherwise affects another, and currencies outside the list are untouched. */
  lemma {:induction false} CurrenciesAreIndependent(periods: Periods, currencies: seq<string>, due: int,
                                                    maxDays: nat, close: (nat, int) -> Outcome, n: nat, c: string)
    requires n <= |currencies| && Distinct(currencies)
    ensures c !in currencies[..n] ==>
              RowsOf(CatchUp(periods, currencies, due, maxDays, close, n).periods, c) == RowsOf(periods, c)
    ensures forall k :: 0 <= k < n && currencies[k] == c ==>
              RowsOf(CatchUp(periods, currencies, due, maxDays, close, n).periods, c)
              == CloseDates(RowsOf(periods, c), OverdueDays(RowsOf(periods, c), due, maxDays),
                            TurnCloses(close, k)).rows
  {
    hide OverdueDays, CloseDates, CurrencyTurn, RowsOf;
    if n > 0 {
      CurrenciesAreIndependent(periods, currencies, due, maxDays, close, n - 1, c);
      assert currencies[..n] == currencies[..n - 1] + [currencies[n - 1]];
      var prev := CatchUp(periods, currencies, due, maxDays, close, n - 1);
      TurnTouchesItsCurrency(prev, currencies[n - 1], due, maxDays, TurnCloses(close, n - 1), c);
    }
  }

  // ---------- Progress ----------

  /** When every close succeeds, a turn shrinks the backlog by exactly min(backlog, maxDays). */
  lemma TurnShrinksBacklog(rows: Rows, due: int, maxDays: nat, close: int -> Outcome)
    requires forall d :: close(d).Closed?
    ensures var run := CloseDates(rows, OverdueDays(rows, due, maxDays), close);
            && run.blocked == 0
            && Backlog(run.rows, due) == Backlog(rows, due) - Least(Backlog(rows, due), maxDays)
  {
    var days := OverdueDays(rows, due, maxDays);
    var run := CloseDates(rows, days, close);
    CloseDatesStopsAtFailure(rows, days, close);
    NoAttemptNoChange(rows, days, close);
    if days != [] {
      var last := days[|days| - 1];
      assert last in ClosedUpTo(run.rows, due);
      assert forall d :: d in ClosedUpTo(run.rows, due) ==> d in ClosedUpTo(rows, due) || d in days;
    }
  }

  /** `t` passes in a row with the same due day; `close(i)` are the outcomes of pass `i`. */
  function Passes(periods: Periods, currencies: seq<string>, due: int, maxDays: nat,
                  close: nat -> (nat, int) -> Outcome, t: nat): Periods
  {
    if t == 0 then periods
    else CatchUp(Passes(periods, currencies, due, maxDays, close, t - 1),
                 currencies, due, maxDays, close(t - 1), |currencies|).periods
  }

  function Minus(a: nat, b: nat): nat { if a <= b then 0 else a - b }

  /** A currency whose own closes succeed has lost `t * maxDays` days of backlog after `t` passes,
      whatever happens to the other currencies. */
  lemma {:induction false} BacklogAfterPasses(periods: Periods, currencies: seq<string>, due: int, maxDays: nat,
                                              close: nat -> (nat, int) -> Outcome, t: nat, k: nat)
    requires k < |currencies| && Distinct(currencies)
    requires forall i: nat, d :: close(i)(k, d).Closed?
    ensures Backlog(RowsOf(Passes(periods, currencies, due, maxDays, close, t), currencies[k]), due)
         == Minus(Backlog(RowsOf(periods, currencies[k]), due), t * maxDays)
  {
    hide OverdueDays, CloseDates, CatchUp, RowsOf, Backlog;
    if t > 0 {
      BacklogAfterPasses(periods, currencies, due, maxDays, close, t - 1, k);
      var before := Passes(periods, currencies, due, maxDays, close, t - 1);
      assert currencies[..|currencies|] == currencies;
      CurrenciesAreIndependent(before, currencies, due, maxDays, close(t - 1), |currencies|, currencies[k]);
      TurnShrinksBacklog(RowsOf(before, currencies[k]), due, maxDays, TurnCloses(close(t - 1), k));
      MulMonotone(t - 1, t, maxDays);
    }
  }

  /** ceil(n / m) */
  function CeilDiv(n: nat, m: nat): nat
    requires m > 0
  {
    (n + m - 1) / m
  }

  lemma CeilDivIsLeast(n: nat, m: nat, t: nat)
    requires m > 0
    ensures n <= t * m <==> CeilDiv(n, m) <= t
  {
    var q := CeilDiv(n, m);
    assert q * m <= n + m - 1 < q * m + m;
    if t < q {
      MulMonotone(t, q - 1, m);
    } else {
      MulMonotone(q, t, m);
    }
  }

  lemma MulMonotone(a: nat, b: int, m: nat)
    requires a <= b
    ensures a * m <= b * m
    ensures (b - 1) * m == b * m - m
  {
  }

  /** A backlog of n days is cleared after ceil(n / maxDays) passes, and not before. */
  lemma BacklogClearedExactlyAfter(periods: Periods, currencies: seq<string>, due: int, maxDays: nat,
                                   close: nat -> (nat, int) -> Outcome, t: nat, k: nat)
    requires k < |currencies| && Distinct(currencies) && maxDays > 0
    requires forall i: nat, d :: close(i)(k, d).Closed?
    ensures Backlog(RowsOf(Passes(periods, currencies, due, maxDays, close, t), currencies[k]), due) == 0
            <==> CeilDiv(Backlog(RowsOf(periods, currencies[k]), due), maxDays) <= t
    ensures Backlog(RowsOf(Passes(periods, currencies, due, maxDays, close, t), currencies[k]), due) == 0
            <==> Backlog(RowsOf(periods, currencies[k]), due) <= t * maxDays
  {
    BacklogAfterPasses(periods, currencies, due, maxDays, close, t, k);
    CeilDivIsLeast(Backlog(RowsOf(periods, currencies[k]), due), maxDays, t);
  }
}
