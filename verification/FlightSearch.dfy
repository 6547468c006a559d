/** The concurrent flight search: its jobs, the events of its coroutines in any order, and its sort. */
module FlightSearch {
  import opened Common

  /** An offer: its sort key and whatever else identifies it. */
  datatype Offer = Offer(price: real, stops: int, duration: int, reference: string)

  // ---------- The jobs ----------

  /** A departure and optional return, as day numbers. */
  type DatePair = (int, Option<int>)

  function Shifted(departure: int, ret: Option<int>, offset: int): DatePair {
    (departure + offset, match ret case None => None case Some(r) => Some(r + offset))
  }

  /** The pairs for the offsets from `lo` up to `hi`, leaving out departures before `earliest`. */
  function PairsFrom(departure: int, ret: Option<int>, earliest: int, lo: int, hi: int): seq<DatePair>
    decreases hi - lo
  {
    if hi < lo then []
    else (if departure + lo < earliest then [] else [Shifted(departure, ret, lo)])
         + PairsFrom(departure, ret, earliest, lo + 1, hi)
  }

  method FlexibleDates(departure: int, ret: Option<int>, flexibility: int, today: int)
    returns (candidates: seq<DatePair>)
    ensures candidates == PairsFrom(departure, ret, today, -flexibility, flexibility)
  {
    hide Shifted;
    candidates := [];
    var offset := -flexibility;
    while offset <= flexibility
      invariant candidates + PairsFrom(departure, ret, today, offset, flexibility)
             == PairsFrom(departure, ret, today, -flexibility, flexibility)
    {
      var shifted := departure + offset;
      if shifted >= today {
        candidates := candidates + [Shifted(departure, ret, offset)];
      }
      offset := offset + 1;
    }
  }

  function Greatest(a: int, b: int): int { if a < b then b else a }

  /** The candidates are the trip shifted by every offset in range that does not depart in the past:
      consecutive departures, each with the original trip length. */
  lemma {:induction false} PairsAreConsecutive(departure: int, ret: Option<int>, earliest: int, lo: int, hi: int)
    ensures var pairs := PairsFrom(departure, ret, earliest, lo, hi);
            var first := Greatest(lo, earliest - departure);
            && |pairs| == Greatest(0, hi - first + 1)
            && forall i :: 0 <= i < |pairs| ==>
                 && pairs[i].0 == departure + first + i
                 && pairs[i].1 == match ret case None => None case Some(r) => Some(r + first + i)
    decreases hi - lo
  {
    if lo <= hi {
      PairsAreConsecutive(departure, ret, earliest, lo + 1, hi);
    }
  }

  /** No candidate departs in the past, and each keeps the original trip length. */
  lemma {:induction false} PairsKeepTripLength(departure: int, ret: Option<int>, earliest: int, lo: int, hi: int)
    ensures forall p :: p in PairsFrom(departure, ret, earliest, lo, hi) ==>
              p.0 >= earliest && (p.1.Some? <==> ret.Some?) && (p.1.Some? ==> p.1.value - p.0 == ret.value - departure)
    decreases hi - lo
  {
    if lo <= hi { PairsKeepTripLength(departure, ret, earliest, lo + 1, hi); }
  }

  /** `[(dates, plan) for dates in date_pairs for plan in plans]` */
  function Jobs<D, P>(dates: seq<D>, plans: seq<P>): seq<(D, P)> {
    if dates == [] then []
    else seq(|plans|, i requires 0 <= i < |plans| => (dates[0], plans[i])) + Jobs(dates[1..], plans)
  }

  lemma Distribute(i: int, n: int)
    ensures i * n == n + (i - 1) * n
  {
  }

  /** Every date is searched with every plan, once, dates first: as job i * |plans| + j. */
  lemma {:induction false} JobsAreAllPairs<D, P>(dates: seq<D>, plans: seq<P>, i: nat, j: nat)
    requires i < |dates| && j < |plans|
    ensures |Jobs(dates, plans)| == |dates| * |plans|
    ensures 0 <= i * |plans| + j < |Jobs(dates, plans)| && Jobs(dates, plans)[i * |plans| + j] == (dates[i], plans[j])
  {
    Distribute(|dates|, |plans|);
    Distribute(i, |plans|);
    if i == 0 {
      JobsLength(dates[1..], plans);
    } else {
      JobsAreAllPairs(dates[1..], plans, i - 1, j);
    }
  }

  lemma {:induction false} JobsLength<D, P>(dates: seq<D>, plans: seq<P>)
    ensures |Jobs(dates, plans)| == |dates| * |plans|
  {
    if dates != [] {
      JobsLength(dates[1..], plans);
      Distribute(|dates|, |plans|);
    }
  }

  // ---------- Sorting ----------

  /** Key order of (total_price, stops, duration_minutes). */
  predicate KeyLe(a: Offer, b: Offer) {
    a.price < b.price ||
    (a.price == b.price && (a.stops < b.stops || (a.stops == b.stops && a.duration <= b.duration)))
  }

  predicate SameKey(a: Offer, b: Offer) {
    a.price == b.price && a.stops == b.stops && a.duration == b.duration
  }

  predicate Sorted(s: seq<Offer>) {
    forall i, j :: 0 <= i < j < |s| ==> KeyLe(s[i], s[j])
  }

  /** The offers with the key of `k`, in order. */
  function WithKey(s: seq<Offer>, k: Offer): seq<Offer> {
    if s == [] then []
    else if SameKey(s[0], k) then [s[0]] + WithKey(s[1..], k) else WithKey(s[1..], k)
  }

  /** Insert before the first offer that is not smaller. */
  function Insert(o: Offer, s: seq<Offer>): seq<Offer> {
    if s == [] || KeyLe(o, s[0]) then [o] + s else [s[0]] + Insert(o, s[1..])
  }

  function StableSort(s: seq<Offer>): seq<Offer> {
    if s == [] then [] else Insert(s[0], StableSort(s[1..]))
  }

  lemma FirstBoundsAll(o: Offer, s: seq<Offer>)
    requires Sorted(s) && s != [] && KeyLe(o, s[0])
    ensures forall i :: 0 <= i < |s| ==> KeyLe(o, s[i])
  {
    assert forall i :: 0 < i < |s| ==> KeyLe(s[0], s[i]);
  }

  lemma {:induction false} InsertSorts(o: Offer, s: seq<Offer>)
    requires Sorted(s)
    ensures Sorted(Insert(o, s))
    ensures multiset(Insert(o, s)) == multiset(s) + multiset{o}
  {
    if s != [] && !KeyLe(o, s[0]) {
      var first, rest := s[0], s[1..];
      assert s == [first] + rest;
      InsertSorts(o, rest);
      var inserted := Insert(o, rest);
      assert KeyLe(first, o);
      assert forall x :: x in rest ==> KeyLe(first, x);
      hide KeyLe, Insert;
      forall i | 0 <= i < |inserted| ensures KeyLe(first, inserted[i]) {
        assert inserted[i] in multiset(rest) + multiset{o};
      }
    } else if s != [] {
      FirstBoundsAll(o, s);
    }
  }

  lemma {:induction false} InsertIsStable(o: Offer, s: seq<Offer>, k: Offer)
    requires Sorted(s)
    ensures WithKey(Insert(o, s), k) == (if SameKey(o, k) then [o] else []) + WithKey(s, k)
  {
    if s == [] || KeyLe(o, s[0]) {
      assert ([o] + s)[1..] == s;
    } else {
      InsertIsStable(o, s[1..], k);
      assert ([s[0]] + Insert(o, s[1..]))[1..] == Insert(o, s[1..]);
    }
  }

  /** `sorted` orders by key and keeps the offers of each key in their given order. */
  lemma {:induction false} SortIsStable(s: seq<Offer>, k: Offer)
    ensures Sorted(StableSort(s)) && WithKey(StableSort(s), k) == WithKey(s, k)
    ensures multiset(StableSort(s)) == multiset(s)
  {
    if s != [] {
      SortIsStable(s[1..], k);
      InsertSorts(s[0], StableSort(s[1..]));
      InsertIsStable(s[0], StableSort(s[1..]), k);
      assert s == [s[0]] + s[1..];
    }
  }

  function Select(s: seq<Offer>, price: real, stops: int, duration: int): seq<Offer> {
    if s == [] then []
    else (if s[0].price == price && s[0].stops == stops && s[0].duration == duration then [s[0]] else [])
         + Select(s[1..], price, stops, duration)
  }

  /** By its data: cheaper offers first, among equal prices those with fewer stops, among those the
      shorter; and offers equal in all three stay in their given order. */
  lemma SortedByPriceStopsDuration(s: seq<Offer>, price: real, stops: int, duration: int)
    ensures var t := StableSort(s);
            && multiset(t) == multiset(s)
            && Select(t, price, stops, duration) == Select(s, price, stops, duration)
            && forall i, j :: 0 <= i < j < |t| ==>
                 && t[i].price <= t[j].price
                 && (t[i].price == t[j].price ==> t[i].stops <= t[j].stops)
                 && (t[i].price == t[j].price && t[i].stops == t[j].stops ==> t[i].duration <= t[j].duration)
  {
    var k := Offer(price, stops, duration, "");
    SortIsStable(s, k);
    SelectIsWithKey(s, k);
    SelectIsWithKey(StableSort(s), k);
  }

  lemma {:induction false} SelectIsWithKey(s: seq<Offer>, k: Offer)
    ensures Select(s, k.price, k.stops, k.duration) == WithKey(s, k)
  {
    if s != [] { SelectIsWithKey(s[1..], k); }
  }

  lemma {:induction false} WithKeyMember(s: seq<Offer>, k: Offer)
    ensures WithKey(s, k) == [] <==> forall i :: 0 <= i < |s| ==> !SameKey(s[i], k)
    ensures forall o :: o in WithKey(s, k) ==> o in s && SameKey(o, k)
  {
    if s != [] { WithKeyMember(s[1..], k); }
  }

  lemma HasOwnKey(s: seq<Offer>)
    ensures s != [] ==> WithKey(s, s[0]) != []
  {
  }

  /** The first of a sorted sequence has the least key, and is the first with that key. */
  lemma FirstIsLeast(s: seq<Offer>, t: seq<Offer>)
    requires Sorted(s) && s != [] && t != []
    requires WithKey(s, t[0]) == WithKey(t, t[0])
    ensures KeyLe(s[0], t[0])
  {
    HasOwnKey(t);
    WithKeyMember(s, t[0]);
    var o := WithKey(s, t[0])[0];
    assert o in s && SameKey(o, t[0]);
    var i :| 0 <= i < |s| && s[i] == o;
    assert i == 0 || KeyLe(s[0], s[i]);
  }

  /** Order and stability leave no choice: any two such arrangements of the same offers are equal. */
  lemma {:induction false} StableOrderIsUnique(s: seq<Offer>, t: seq<Offer>)
    requires Sorted(s) && Sorted(t) && forall k :: WithKey(s, k) == WithKey(t, k)
    ensures s == t
  {
    HasOwnKey(s);
    HasOwnKey(t);
    if s != [] {
      assert WithKey(s, s[0]) == WithKey(t, s[0]) && t != [];
      assert WithKey(s, t[0]) == WithKey(t, t[0]);
      FirstIsLeast(s, t);
      FirstIsLeast(t, s);
      assert WithKey(s, s[0])[0] == s[0] && WithKey(t, s[0])[0] == t[0];
      forall k ensures WithKey(s[1..], k) == WithKey(t[1..], k) {
        assert WithKey(s, k) == WithKey(t, k);
        if SameKey(s[0], k) {
          assert WithKey(s, k)[1..] == WithKey(s[1..], k) && WithKey(t, k)[1..] == WithKey(t[1..], k);
        }
      }
      StableOrderIsUnique(s[1..], t[1..]);
    }
  }

  // ---------- The coroutines ----------

  function Flatten(groups: seq<seq<Offer>>): seq<Offer> {
    if groups == [] then [] else groups[0] + Flatten(groups[1..])
  }

  /** Every job's offers are in the flattened list, together and after those of the jobs before it. */
  lemma {:induction false} OffersInJobOrder(groups: seq<seq<Offer>>, i: nat)
    requires i < |groups|
    ensures Flatten(groups) == Flatten(groups[..i]) + groups[i] + Flatten(groups[i + 1..])
    ensures Flatten([]) == []
  {
    if i == 0 {
      assert groups[..0] == [];
    } else {
      OffersInJobOrder(groups[1..], i - 1);
      assert groups[..i][1..] == groups[1..][..i - 1] && groups[1..][i..] == groups[i + 1..];
    }
  }

  /** A job waits for a permit, has its provider call in flight, has left the semaphore with the
      call's result, or has counted itself and returned. */
  datatype JobState = Waiting | InFlight | Left(reply: seq<Offer>) | Returned(result: seq<Offer>)

  datatype State = State(jobs: seq<JobState>, permits: int, completed: nat, progress: seq<(nat, nat)>)

  /** What the event loop may run next for job `i`. */
  datatype Event = Start(i: nat) | Reply(i: nat) | Count(i: nat)

  function Initial(n: nat, maxConcurrency: nat): State {
    State(seq(n, _ => Waiting), maxConcurrency, 0, [])
  }

  predicate Enabled(s: State, e: Event) {
    e.i < |s.jobs| &&
    match e
    case Start(i) => s.jobs[i].Waiting? && s.permits > 0
    case Reply(i) => s.jobs[i].InFlight?
    case Count(i) => s.jobs[i].Left?
  }

  /** `provider[i]` is what the call of job `i` returns. An event that is not enabled does nothing. */
  function Next(s: State, e: Event, provider: seq<seq<Offer>>): State
    requires |provider| == |s.jobs|
  {
    if !Enabled(s, e) then s else
    match e
    case Start(i) => s.(jobs := s.jobs[i := InFlight], permits := s.permits - 1)
    case Reply(i) => s.(jobs := s.jobs[i := Left(provider[i])], permits := s.permits + 1)
    case Count(i) =>
      s.(jobs := s.jobs[i := Returned(s.jobs[i].reply)], completed := s.completed + 1,
         progress := s.progress + [(s.completed + 1, |s.jobs|)])
  }

  function Run(provider: seq<seq<Offer>>, maxConcurrency: nat, events: seq<Event>): (s: State)
    ensures |s.jobs| == |provider|
  {
    if events == [] then Initial(|provider|, maxConcurrency)
    else Next(Run(provider, maxConcurrency, events[..|events| - 1]), events[|events| - 1], provider)
  }

  function CountInFlight(jobs: seq<JobState>): nat {
    if jobs == [] then 0 else (if jobs[0].InFlight? then 1 else 0) + CountInFlight(jobs[1..])
  }

  function CountReturned(jobs: seq<JobState>): nat {
    if jobs == [] then 0 else (if jobs[0].Returned? then 1 else 0) + CountReturned(jobs[1..])
  }

  /** Events the job still has to go through. */
  function Ahead(job: JobState): nat {
    match job case Waiting => 3 case InFlight => 2 case Left(_) => 1 case Returned(_) => 0
  }

  function Work(jobs: seq<JobState>): nat {
    if jobs == [] then 0 else Ahead(jobs[0]) + Work(jobs[1..])
  }

  predicate AllReturned(jobs: seq<JobState>) {
    forall i :: 0 <= i < |jobs| ==> jobs[i].Returned?
  }

  function ProgressReports(completed: nat, total: nat): seq<(nat, nat)> {
    seq(completed, i => (i + 1, total))
  }

  lemma {:induction false} UpdateCounts(jobs: seq<JobState>, i: nat, job: JobState)
    requires i < |jobs|
    ensures CountInFlight(jobs[i := job])
         == CountInFlight(jobs) - (if jobs[i].InFlight? then 1 else 0) + (if job.InFlight? then 1 else 0)
    ensures CountReturned(jobs[i := job])
         == CountReturned(jobs) - (if jobs[i].Returned? then 1 else 0) + (if job.Returned? then 1 else 0)
    ensures Work(jobs[i := job]) == Work(jobs) - Ahead(jobs[i]) + Ahead(job)
  {
    if i > 0 {
      UpdateCounts(jobs[1..], i - 1, job);
      assert jobs[i := job][1..] == jobs[1..][i - 1 := job];
    } else {
      assert jobs[i := job][1..] == jobs[1..];
    }
  }

  lemma {:induction false} InitialCounts(jobs: seq<JobState>)
    requires forall i :: 0 <= i < |jobs| ==> jobs[i].Waiting?
    ensures CountInFlight(jobs) == 0 && CountReturned(jobs) == 0 && Work(jobs) == 3 * |jobs|
  {
    if jobs != [] { InitialCounts(jobs[1..]); }
  }

  lemma {:induction false} NoWorkLeft(jobs: seq<JobState>)
    ensures Work(jobs) == 0 <==> AllReturned(jobs)
    ensures CountReturned(jobs) == |jobs| <==> AllReturned(jobs)
    ensures CountReturned(jobs) <= |jobs|
    ensures CountInFlight(jobs) > 0 ==> exists i :: 0 <= i < |jobs| && jobs[i].InFlight?
  {
    if jobs != [] {
      NoWorkLeft(jobs[1..]);
      assert AllReturned(jobs) <==> jobs[0].Returned? && AllReturned(jobs[1..]) by {
        if jobs[0].Returned? && AllReturned(jobs[1..]) {
          forall i | 0 <= i < |jobs| ensures jobs[i].Returned? { if i > 0 { assert jobs[1..][i - 1].Returned?; } }
        }
        if AllReturned(jobs) {
          forall i | 0 <= i < |jobs[1..]| ensures jobs[1..][i].Returned? { assert jobs[i + 1].Returned?; }
        }
      }
      if CountInFlight(jobs[1..]) > 0 {
        var i :| 0 <= i < |jobs[1..]| && jobs[1..][i].InFlight?;
        assert jobs[i + 1].InFlight?;
      }
    }
  }

  // ---------- Every run ----------

  /** Permits and calls in flight add up, progress counts the returned jobs, replies are the provider's. */
  ghost predicate Invariant(s: State, provider: seq<seq<Offer>>, maxConcurrency: nat) {
    && |s.jobs| == |provider|
    && s.permits >= 0 && s.permits + CountInFlight(s.jobs) == maxConcurrency
    && s.completed == CountReturned(s.jobs)
    && s.progress == ProgressReports(s.completed, |provider|)
    && (forall i :: 0 <= i < |s.jobs| && s.jobs[i].Left? ==> s.jobs[i].reply == provider[i])
    && (forall i :: 0 <= i < |s.jobs| && s.jobs[i].Returned? ==> s.jobs[i].result == provider[i])
  }

  lemma StepKeepsInvariant(s: State, e: Event, provider: seq<seq<Offer>>, maxConcurrency: nat)
    requires Invariant(s, provider, maxConcurrency)
    ensures Invariant(Next(s, e, provider), provider, maxConcurrency)
    ensures Work(Next(s, e, provider).jobs) == Work(s.jobs) - if Enabled(s, e) then 1 else 0
  {
    if Enabled(s, e) { UpdateCounts(s.jobs, e.i, Next(s, e, provider).jobs[e.i]); }
  }

  lemma {:induction false} RunKeepsInvariant(provider: seq<seq<Offer>>, maxConcurrency: nat, events: seq<Event>)
    ensures Invariant(Run(provider, maxConcurrency, events), provider, maxConcurrency)
  {
    if events == [] {
      InitialCounts(Initial(|provider|, maxConcurrency).jobs);
    } else {
      var front := events[..|events| - 1];
      RunKeepsInvariant(provider, maxConcurrency, front);
      StepKeepsInvariant(Run(provider, maxConcurrency, front), events[|events| - 1], provider, maxConcurrency);
    }
  }

  /** After every sequence of events, so at every moment: at most `maxConcurrency` calls are in flight,
      and progress has been reported as 1, 2, … up to the number of returned jobs, each once, in order. */
  lemma BoundedAndInOrder(provider: seq<seq<Offer>>, maxConcurrency: nat, events: seq<Event>)
    ensures var s := Run(provider, maxConcurrency, events);
            && CountInFlight(s.jobs) <= maxConcurrency
            && s.progress == ProgressReports(CountReturned(s.jobs), |provider|)
  {
    RunKeepsInvariant(provider, maxConcurrency, events);
  }

  /** The search never gets stuck: some event is enabled exactly while a job has not returned. */
  lemma EnabledUntilReturned(provider: seq<seq<Offer>>, maxConcurrency: nat, events: seq<Event>)
    requires maxConcurrency > 0
    ensures var s := Run(provider, maxConcurrency, events);
            (exists e :: Enabled(s, e)) <==> !AllReturned(s.jobs)
  {
    RunKeepsInvariant(provider, maxConcurrency, events);
    var s := Run(provider, maxConcurrency, events);
    if !AllReturned(s.jobs) {
      var i: nat :| i < |s.jobs| && !s.jobs[i].Returned?;
      NoWorkLeft(s.jobs);
      match s.jobs[i]
      case Left(_) => assert Enabled(s, Count(i));
      case InFlight => assert Enabled(s, Reply(i));
      case Waiting =>
        if s.permits > 0 {
          assert Enabled(s, Start(i));
        } else {
          var j: nat :| j < |s.jobs| && s.jobs[j].InFlight?;
          assert Enabled(s, Reply(j));
        }
    }
  }

  function CountEnabled(provider: seq<seq<Offer>>, maxConcurrency: nat, events: seq<Event>): nat {
    if events == [] then 0
    else
      var front := events[..|events| - 1];
      CountEnabled(provider, maxConcurrency, front)
      + if Enabled(Run(provider, maxConcurrency, front), events[|events| - 1]) then 1 else 0
  }

  lemma {:induction false} WorkDone(provider: seq<seq<Offer>>, maxConcurrency: nat, events: seq<Event>)
    ensures CountEnabled(provider, maxConcurrency, events) + Work(Run(provider, maxConcurrency, events).jobs)
         == 3 * |provider|
  {
    if events == [] {
      InitialCounts(Initial(|provider|, maxConcurrency).jobs);
    } else {
      var front := events[..|events| - 1];
      WorkDone(provider, maxConcurrency, front);
      RunKeepsInvariant(provider, maxConcurrency, front);
      StepKeepsInvariant(Run(provider, maxConcurrency, front), events[|events| - 1], provider, maxConcurrency);
    }
  }

  /** Every run ends: no run has more than three effective events for each job, and all jobs have
      returned exactly when it has had them all. */
  lemma RunsEnd(provider: seq<seq<Offer>>, maxConcurrency: nat, events: seq<Event>)
    ensures CountEnabled(provider, maxConcurrency, events) <= 3 * |provider|
    ensures AllReturned(Run(provider, maxConcurrency, events).jobs)
            <==> CountEnabled(provider, maxConcurrency, events) == 3 * |provider|
  {
    WorkDone(provider, maxConcurrency, events);
    NoWorkLeft(Run(provider, maxConcurrency, events).jobs);
  }

  /** `gather`: the results in job order once every job has returned. */
  function Gathered(jobs: seq<JobState>): seq<seq<Offer>>
    requires AllReturned(jobs)
  {
    seq(|jobs|, i requires 0 <= i < |jobs| => jobs[i].result)
  }

  /** Whatever the order of events, a finished run has gathered the provider's replies in job order. */
  lemma GathersInJobOrder(provider: seq<seq<Offer>>, maxConcurrency: nat, events: seq<Event>)
    requires AllReturned(Run(provider, maxConcurrency, events).jobs)
    ensures Gathered(Run(provider, maxConcurrency, events).jobs) == provider
    ensures Run(provider, maxConcurrency, events).progress == ProgressReports(|provider|, |provider|)
  {
    RunKeepsInvariant(provider, maxConcurrency, events);
    NoWorkLeft(Run(provider, maxConcurrency, events).jobs);
  }

  /** One search over error-free provider calls, under the order in which the event loop runs its
      coroutines. `inFlight` is the number of calls in flight after each event; None means that some
      job has not returned by the end of the schedule. */
  method Search(provider: seq<seq<Offer>>, maxConcurrency: nat, schedule: seq<Event>)
    returns (offers: Option<seq<Offer>>, progress: seq<(nat, nat)>, inFlight: seq<nat>)
    ensures |inFlight| == |schedule|
    ensures forall k :: 0 <= k < |schedule| ==>
              inFlight[k] == CountInFlight(Run(provider, maxConcurrency, schedule[..k + 1]).jobs) <= maxConcurrency
    ensures var s := Run(provider, maxConcurrency, schedule);
            && progress == ProgressReports(CountReturned(s.jobs), |provider|)
            && (offers.Some? <==> AllReturned(s.jobs))
    ensures offers.Some? ==> offers.value == StableSort(Flatten(provider))
  {
    hide Run, Invariant, StableSort, CountInFlight, CountReturned, ProgressReports;
    var jobs: seq<JobState> := seq(|provider|, _ => Waiting);
    var permits: int, completed: nat := maxConcurrency, 0;
    progress, inFlight := [], [];
    RunNothing(provider, maxConcurrency, schedule);
    for k := 0 to |schedule|
      invariant State(jobs, permits, completed, progress) == Run(provider, maxConcurrency, schedule[..k])
      invariant |inFlight| == k
      invariant forall j :: 0 <= j < k ==>
        inFlight[j] == CountInFlight(Run(provider, maxConcurrency, schedule[..j + 1]).jobs) <= maxConcurrency
    {
      RunOneMore(provider, maxConcurrency, schedule, k);
      var e := schedule[k];
      if e.i < |jobs| {
        if e.Start? && jobs[e.i].Waiting? && permits > 0 {
          permits := permits - 1;
          jobs := jobs[e.i := InFlight];
        } else if e.Reply? && jobs[e.i].InFlight? {
          permits := permits + 1;
          jobs := jobs[e.i := Left(provider[e.i])];
        } else if e.Count? && jobs[e.i].Left? {
          jobs := jobs[e.i := Returned(jobs[e.i].reply)];
          completed := completed + 1;
          progress := progress + [(completed, |jobs|)];
        }
      }
      UsedPermits(provider, maxConcurrency, schedule[..k + 1]);
      inFlight := inFlight + [maxConcurrency - permits];
    }
    assert schedule[..|schedule|] == schedule;
    BoundedAndInOrder(provider, maxConcurrency, schedule);
    offers := None;
    if forall i :: 0 <= i < |jobs| ==> jobs[i].Returned? {
      GathersInJobOrder(provider, maxConcurrency, schedule);
      offers := Some(StableSort(Flatten(Gathered(jobs))));
    }
  }

  lemma RunNothing(provider: seq<seq<Offer>>, maxConcurrency: nat, events: seq<Event>)
    ensures Run(provider, maxConcurrency, events[..0]) == Initial(|provider|, maxConcurrency)
  {
  }

  lemma RunOneMore(provider: seq<seq<Offer>>, maxConcurrency: nat, events: seq<Event>, k: nat)
    requires k < |events|
    ensures Run(provider, maxConcurrency, events[..k + 1])
         == Next(Run(provider, maxConcurrency, events[..k]), events[k], provider)
  {
    assert events[..k + 1][..k] == events[..k];
  }

  /** The semaphore's permits tell how many calls are in flight. */
  lemma UsedPermits(provider: seq<seq<Offer>>, maxConcurrency: nat, events: seq<Event>)
    ensures var s := Run(provider, maxConcurrency, events);
            CountInFlight(s.jobs) == maxConcurrency - s.permits <= maxConcurrency
  {
    RunKeepsInvariant(provider, maxConcurrency, events);
  }
}
