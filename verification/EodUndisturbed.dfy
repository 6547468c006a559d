/** The protocol and the sequential tick agree: a poll that no other instance disturbs is a run of
    the protocol whose effect on periods and schedule is that of `EodCatchUp` and `EodLease`. */
module EodUndisturbed {
  import opened Common
  import opened EodPeriods
  import opened EodLease
  import opened EodCatchUp
  import opened EodProtocol

  lemma {:induction false} RunAppend(s: State, a: seq<Step>, b: seq<Step>)
    ensures Run(s, a + b) == Run(Run(s, a), b)
    decreases |b|
  {
    if b == [] {
      assert a + b == a;
    } else {
      RunAppend(s, a, b[..|b| - 1]);
      assert (a + b)[..|a + b| - 1] == a + b[..|b| - 1];
    }
  }

  lemma RunOne(s: State, step: Step)
    ensures Run(s, [step]) == Next(s, step)
  {
    assert [step][..0] == [];
    assert Run(s, []) == s;
  }

  /** The closes of one turn, up to and including the first that fails. */
  function CloseSteps(i: string, days: seq<int>, close: int -> Outcome): seq<Step>
    decreases |days|
  {
    if days == [] then []
    else [Close(i, close(days[0]))] + if close(days[0]).Closed? then CloseSteps(i, days[1..], close) else []
  }

  lemma {:induction false} ClosesRun(s: State, i: string, p: Phase, close: int -> Outcome)
    requires p.Holding? && p.work.Closing? && p.work.days != [] && PhaseOf(s, i) == p && i in s.instances
    ensures var run := CloseDates(RowsOf(s.periods, p.work.currency), p.work.days, close);
            Run(s, CloseSteps(i, p.work.days, close))
            == SetPhase(s, i, p.(work := Turns(p.work.rest))).(periods := s.periods[p.work.currency := run.rows])
    decreases |p.work.days|
  {
    var c, days := p.work.currency, p.work.days;
    var o := close(days[0]);
    var s1 := Next(s, Close(i, o));
    var rest := if o.Closed? then CloseSteps(i, days[1..], close) else [];
    RunAppend(s, [Close(i, o)], rest);
    RunOne(s, Close(i, o));
    assert Run(s1, []) == s1;
    if o.Closed? && |days| > 1 {
      ClosesRun(s1, i, p.(work := p.work.(days := days[1..])), close);
    }
  }

  /** The steps of the first `n` turns. */
  function TurnSteps(i: string, periods: Periods, currencies: seq<string>, due: int, maxDays: nat,
                     close: (nat, int) -> Outcome, n: nat): seq<Step>
    requires n <= |currencies|
  {
    if n == 0 then []
    else
      var before := CatchUp(periods, currencies, due, maxDays, close, n - 1).periods;
      TurnSteps(i, periods, currencies, due, maxDays, close, n - 1) + [List(i, maxDays)]
      + CloseSteps(i, OverdueDays(RowsOf(before, currencies[n - 1]), due, maxDays), TurnCloses(close, n - 1))
  }

  lemma OneTurnRuns(s: State, i: string, p: Phase, maxDays: nat, close: int -> Outcome, pass: Pass)
    requires p.Holding? && p.work.Turns? && p.work.rest != [] && PhaseOf(s, i) == p && i in s.instances
    requires pass.periods == s.periods
    ensures var days := OverdueDays(RowsOf(s.periods, p.work.rest[0]), p.due, maxDays);
            Run(s, [List(i, maxDays)] + CloseSteps(i, days, close))
            == SetPhase(s, i, p.(work := Turns(p.work.rest[1..])))
                 .(periods := CurrencyTurn(pass, p.work.rest[0], p.due, maxDays, close).periods)
  {
    hide OverdueDays, AfterClose;
    var c := p.work.rest[0];
    var days := OverdueDays(RowsOf(s.periods, c), p.due, maxDays);
    RunAppend(s, [List(i, maxDays)], CloseSteps(i, days, close));
    RunOne(s, List(i, maxDays));
    var s1 := Next(s, List(i, maxDays));
    CloseDatesStopsAtFailure(RowsOf(s.periods, c), days, close);
    if days == [] {
      assert Run(s1, []) == s1;
    } else {
      ClosesRun(s1, i, p.(work := Closing(c, days, p.work.rest[1..])), close);
    }
  }

  lemma {:induction false} TurnsRun(s: State, i: string, p: Phase, currencies: seq<string>, maxDays: nat,
                                    close: (nat, int) -> Outcome, n: nat)
    requires p.Holding? && p.work == Turns(currencies) && PhaseOf(s, i) == p && i in s.instances && n <= |currencies|
    ensures Run(s, TurnSteps(i, s.periods, currencies, p.due, maxDays, close, n))
         == SetPhase(s, i, p.(work := Turns(currencies[n..])))
              .(periods := CatchUp(s.periods, currencies, p.due, maxDays, close, n).periods)
  {
    hide OverdueDays, CurrencyTurn, CloseSteps, Next;
    if n == 0 {
      assert currencies[0..] == currencies;
      assert s.instances[i := p] == s.instances;
    } else {
      TurnsRun(s, i, p, currencies, maxDays, close, n - 1);
      var front := TurnSteps(i, s.periods, currencies, p.due, maxDays, close, n - 1);
      var pass := CatchUp(s.periods, currencies, p.due, maxDays, close, n - 1);
      var t := Run(s, front);
      var days := OverdueDays(RowsOf(pass.periods, currencies[n - 1]), p.due, maxDays);
      var turn := [List(i, maxDays)] + CloseSteps(i, days, TurnCloses(close, n - 1));
      assert currencies[n - 1..][0] == currencies[n - 1] && currencies[n - 1..][1..] == currencies[n..];
      OneTurnRuns(t, i, p.(work := Turns(currencies[n - 1..])), maxDays, TurnCloses(close, n - 1), pass);
      RunAppend(s, front, turn);
      assert TurnSteps(i, s.periods, currencies, p.due, maxDays, close, n) == front + turn;
    }
  }

  function PollSteps(i: string, s: State, force: bool, leaseAt: int, confirmAt: int, releaseAt: int, due: int,
                     currencies: seq<string>, maxDays: nat, close: (nat, int) -> Outcome): seq<Step>
  {
    var pass := CatchUp(s.periods, currencies, due, maxDays, close, |currencies|);
    [Acquire(i, force, leaseAt)] + [Confirm(i, confirmAt, due)] + [Load(i, currencies)]
    + TurnSteps(i, s.periods, currencies, due, maxDays, close, |currencies|)
    + [Release(i, releaseAt, PassStatus(pass), pass.attempted > 0, pass.last)]
  }

  lemma PollStarts(s: State, i: string, force: bool, leaseAt: int, confirmAt: int, due: int, currencies: seq<string>)
    requires i in s.instances && s.instances[i].Idle? && leaseAt <= s.clock && confirmAt <= s.clock
    requires LeaseHeld(LeaseUpdate(s.schedule, i, force, leaseAt), i, confirmAt)
    ensures var t := Run(s, [Acquire(i, force, leaseAt)] + [Confirm(i, confirmAt, due)] + [Load(i, currencies)]);
            && t.periods == s.periods && t.clock == s.clock && i in t.instances
            && t.schedule == LeaseUpdate(s.schedule, i, force, leaseAt)
            && PhaseOf(t, i).Holding? && PhaseOf(t, i).due == due && PhaseOf(t, i).work == Turns(currencies)
            && t.instances == s.instances[i := PhaseOf(t, i)]
  {
    hide Next, Run, MayLease, LeaseHeld, LeaseUpdate;
    var a, b, c := Acquire(i, force, leaseAt), Confirm(i, confirmAt, due), Load(i, currencies);
    var s1 := Next(s, a);
    var s2 := Next(s1, b);
    RunOne(s, a);
    RunOne(s1, b);
    RunOne(s2, c);
    RunAppend(s, [a], [b]);
    RunAppend(s, [a] + [b], [c]);
    Acquires(s, i, force, leaseAt);
    Confirms(s1, i, confirmAt, due);
    Loads(s2, i, currencies);
    var p := PhaseOf(Next(s2, c), i);
    assert s.instances[i := Updated(force)][i := PhaseOf(s2, i)][i := p] == s.instances[i := p];
  }

  lemma Acquires(s: State, i: string, force: bool, now: int)
    requires i in s.instances && s.instances[i].Idle? && now <= s.clock
    ensures var t := Next(s, Acquire(i, force, now));
            && t.periods == s.periods && t.clock == s.clock && t.schedule == LeaseUpdate(s.schedule, i, force, now)
            && t.instances == s.instances[i := Updated(force)]
  {
    hide LeaseUpdate;
  }

  lemma Confirms(s: State, i: string, now: int, due: int)
    requires PhaseOf(s, i).Updated? && now <= s.clock && LeaseHeld(s.schedule, i, now)
    ensures var t := Next(s, Confirm(i, now, due));
            && t.periods == s.periods && t.clock == s.clock && t.schedule == s.schedule && i in t.instances
            && t.instances == s.instances[i := PhaseOf(t, i)]
            && PhaseOf(t, i).Holding? && PhaseOf(t, i).due == due && PhaseOf(t, i).work.LoadCurrencies?
  {
  }

  lemma Loads(s: State, i: string, currencies: seq<string>)
    requires PhaseOf(s, i).Holding? && PhaseOf(s, i).work.LoadCurrencies?
    ensures Next(s, Load(i, currencies))
         == s.(instances := s.instances[i := PhaseOf(s, i).(work := Turns(currencies))])
  {
  }

  /** A poll that takes the lease and meets no other instance leaves exactly the periods of the
      sequential pass, and the schedule row leased and then released with the pass's status. */
  lemma UndisturbedPoll(s: State, i: string, force: bool, leaseAt: int, confirmAt: int, releaseAt: int, due: int,
                        currencies: seq<string>, maxDays: nat, close: (nat, int) -> Outcome)
    requires i in s.instances && s.instances[i].Idle?
    requires leaseAt <= s.clock && confirmAt <= s.clock && releaseAt <= s.clock
    requires LeaseHeld(LeaseUpdate(s.schedule, i, force, leaseAt), i, confirmAt)
    ensures var t := Run(s, PollSteps(i, s, force, leaseAt, confirmAt, releaseAt, due, currencies, maxDays, close));
            var pass := CatchUp(s.periods, currencies, due, maxDays, close, |currencies|);
            && t.periods == pass.periods
            && t.schedule == ReleaseUpdate(LeaseUpdate(s.schedule, i, force, leaseAt), i, releaseAt,
                                           PassStatus(pass), pass.attempted > 0, pass.last)
            && t.instances == s.instances
  {
    hide CatchUp, TurnSteps, LeaseHeld, LeaseUpdate, ReleaseUpdate, PassStatus, Run;
    var pass := CatchUp(s.periods, currencies, due, maxDays, close, |currencies|);
    var turns := TurnSteps(i, s.periods, currencies, due, maxDays, close, |currencies|);
    var start := [Acquire(i, force, leaseAt)] + [Confirm(i, confirmAt, due)] + [Load(i, currencies)];
    var rel := Release(i, releaseAt, PassStatus(pass), pass.attempted > 0, pass.last);
    PollStarts(s, i, force, leaseAt, confirmAt, due, currencies);
    var s3 := Run(s, start);
    TurnsRun(s3, i, PhaseOf(s3, i), currencies, maxDays, close, |currencies|);
    RunAppend(s, start, turns);
    RunAppend(s, start + turns, [rel]);
    var s4 := Run(s, start + turns);
    RunOne(s4, rel);
    assert currencies[|currencies|..] == [];
    assert PhaseOf(s4, i).Holding? && PhaseOf(s4, i).work == Turns([]);
    assert s4.instances[i := Idle] == s.instances;
  }
}
