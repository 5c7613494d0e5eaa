/** Runs of the job queue that its rules allow: past the retry cap, and into the hands of a worker that died. */
module JobRuns {
  import opened Bytes
  import opened JobQueue

  // ---- the step that passes the cap ----

  /** A worker finishing a job takes its attempts past the cap exactly when it asks for a retry of a job that is at the
      cap, on a view that is not. */
  lemma CapPassedIff(s: System, w: string, outcome: Outcome, now: int)
    requires Inv(s) && Enabled(s, Finish(w, outcome), now)
    requires var id := Held(s, w).value.id; id in s.jobs && s.jobs[id].attempts <= MAX_ATTEMPTS
    ensures var view := Held(s, w).value; var next := Step(s, Finish(w, outcome), now);
            view.id in next.jobs &&
            (next.jobs[view.id].attempts > MAX_ATTEMPTS <==>
             outcome.Retry? && view.attempts < MAX_ATTEMPTS && s.jobs[view.id].attempts == MAX_ATTEMPTS)
  {
  }

  // ---- runs put together ----

  lemma {:induction false} RunConcat(s: System, a: seq<Event>, b: seq<Event>)
    requires Legal(s, a) && Legal(Run(s, a), b)
    ensures Legal(s, a + b) && Run(s, a + b) == Run(Run(s, a), b)
    decreases |a|
  {
    if a == [] {
      assert a + b == b;
    } else {
      assert (a + b)[1..] == a[1..] + b;
      RunConcat(Step(s, a[0].act, a[0].now), a[1..], b);
    }
  }

  function At(act: Act): Event {
    Event(act, 0)
  }

  lemma RunOne(s: System, act: Act)
    requires Enabled(s, act, 0)
    ensures Legal(s, [At(act)]) && Run(s, [At(act)]) == Step(s, act, 0)
  {
    var rest := [At(act)][1..];
    assert rest == [];
    assert Legal(Step(s, act, 0), rest);
  }

  lemma RunSnoc(s: System, a: seq<Event>, act: Act)
    requires Legal(s, a) && Enabled(Run(s, a), act, 0)
    ensures Legal(s, a + [At(act)]) && Run(s, a + [At(act)]) == Step(Run(s, a), act, 0)
  {
    RunOne(Run(s, a), act);
    RunConcat(s, a, [At(act)]);
  }

  const JOB: string := "job"
  const OTHER: string := ""

  /** The workers with a list; no two share a name, and none is called OTHER. */
  function Name(i: nat): (w: string)
    ensures |w| == i + 1
  {
    seq(i + 1, _ => 'w')
  }

  // ---- many workers list, one works ----

  /** The job is pending with a attempts and n outdated claims on record; workers from `from` up to `to` still hold a
      list that shows none; OTHER is idle. */
  ghost predicate Waiting(s: System, a: nat, n: nat, from: nat, to: nat) {
    && JOB in s.jobs && Due(s.jobs[JOB], 0) && s.jobs[JOB].attempts == a && s.stale[JOB] == n
    && WorkerOf(s, OTHER) == IDLE
    && (forall i | from <= i < to :: WorkerOf(s, Name(i)) == Worker([View(JOB, 0)], None))
    && (forall i | to <= i :: WorkerOf(s, Name(i)) == IDLE)
  }

  function Lists(n: nat): seq<Event> {
    if n == 0 then [At(Enqueue(JOB, None))]
    else Lists(n - 1) + [At(ListPending(Name(n - 1), [JOB]))]
  }

  lemma {:induction false} ListsWait(n: nat)
    ensures Legal(EMPTY, Lists(n)) && Waiting(Run(EMPTY, Lists(n)), 0, 0, 0, n)
  {
    if n == 0 {
      RunOne(EMPTY, Enqueue(JOB, None));
    } else {
      ListsWait(n - 1);
      var s := Run(EMPTY, Lists(n - 1));
      assert Views(s.jobs, [JOB]) == [View(JOB, 0)];
      RunSnoc(EMPTY, Lists(n - 1), ListPending(Name(n - 1), [JOB]));
    }
  }

  const RETRY: Outcome := Retry("", 0)

  /** One failed attempt, start to finish, on a view of its own. */
  lemma FreshAttempt(s: System, a: nat, to: nat) returns (events: seq<Event>)
    requires Waiting(s, a, 0, 0, to) && a < MAX_ATTEMPTS
    ensures Legal(s, events) && Waiting(Run(s, events), a + 1, 0, 0, to)
  {
    var list, claim, finish := ListPending(OTHER, [JOB]), ClaimNext(OTHER), Finish(OTHER, RETRY);
    var s1 := Step(s, list, 0);
    assert Views(s.jobs, [JOB]) == [View(JOB, a)];
    var s2 := Step(s1, claim, 0);
    assert [View(JOB, a)][1..] == [];
    events := [];
    RunSnoc(s, events, list);
    events := events + [At(list)];
    RunSnoc(s, events, claim);
    events := events + [At(claim)];
    RunSnoc(s, events, finish);
    events := events + [At(finish)];
  }

  lemma {:induction false} FreshAttempts(s: System, a: nat, to: nat) returns (events: seq<Event>)
    requires Waiting(s, a, 0, 0, to) && a <= MAX_ATTEMPTS
    ensures Legal(s, events) && Waiting(Run(s, events), MAX_ATTEMPTS, 0, 0, to)
    decreases MAX_ATTEMPTS - a
  {
    if a == MAX_ATTEMPTS {
      events := [];
    } else {
      var first := FreshAttempt(s, a, to);
      var rest := FreshAttempts(Run(s, first), a + 1, to);
      RunConcat(s, first, rest);
      events := first + rest;
    }
  }

  /** One more attempt, on an outdated view. */
  lemma StaleAttempt(s: System, n: nat, to: nat) returns (events: seq<Event>)
    requires n < to && Waiting(s, MAX_ATTEMPTS + n, n, n, to)
    ensures Legal(s, events) && Waiting(Run(s, events), MAX_ATTEMPTS + n + 1, n + 1, n + 1, to)
  {
    var w := Name(n);
    var claim, finish := ClaimNext(w), Finish(w, RETRY);
    assert WorkerOf(s, w) == Worker([View(JOB, 0)], None);
    assert [View(JOB, 0)][1..] == [];
    var s1 := Step(s, claim, 0);
    events := [];
    RunSnoc(s, events, claim);
    events := events + [At(claim)];
    RunSnoc(s, events, finish);
    events := events + [At(finish)];
  }

  lemma {:induction false} StaleAttempts(s: System, n: nat, to: nat) returns (events: seq<Event>)
    requires n <= to && Waiting(s, MAX_ATTEMPTS + n, n, n, to)
    ensures Legal(s, events) && Waiting(Run(s, events), MAX_ATTEMPTS + to, to, to, to)
    decreases if n < to then to - n else 0
  {
    if n == to {
      events := [];
    } else {
      var first := StaleAttempt(s, n, to);
      var rest := StaleAttempts(Run(s, first), n + 1, to);
      RunConcat(s, first, rest);
      events := first + rest;
    }
  }

  /** The cap can be exceeded by any number of attempts, once for each claim on an outdated view: the bound on them is
      attained. */
  lemma CapExceeded(n: nat) returns (events: seq<Event>)
    ensures Legal(EMPTY, events)
    ensures var s := Run(EMPTY, events);
            JOB in s.jobs && s.stale[JOB] == n && s.jobs[JOB].attempts == MAX_ATTEMPTS + n
  {
    ListsWait(n);
    var current := FreshAttempts(Run(EMPTY, Lists(n)), 0, n);
    RunConcat(EMPTY, Lists(n), current);
    var stale := StaleAttempts(Run(EMPTY, Lists(n) + current), 0, n);
    RunConcat(EMPTY, Lists(n) + current, stale);
    events := Lists(n) + current + stale;
  }

  // ---- a worker that dies ----

  const ABANDONING: seq<Event> :=
    [At(Enqueue(JOB, None)), At(ListPending(OTHER, [JOB])), At(ClaimNext(OTHER)), At(Crash(OTHER))]

  lemma ClaimedJob() returns (events: seq<Event>)
    ensures events == ABANDONING[..3] && Legal(EMPTY, events)
    ensures var s := Run(EMPTY, events);
            JOB in s.jobs && s.jobs[JOB].status == InProgress && Holds(s, OTHER, JOB)
  {
    events := [At(Enqueue(JOB, None))];
    RunOne(EMPTY, Enqueue(JOB, None));
    var s := Run(EMPTY, events);
    assert Views(s.jobs, [JOB]) == [View(JOB, 0)];
    RunSnoc(EMPTY, events, ListPending(OTHER, [JOB]));
    events := events + [At(ListPending(OTHER, [JOB]))];
    RunSnoc(EMPTY, events, ClaimNext(OTHER));
    events := events + [At(ClaimNext(OTHER))];
  }

  /** Enqueue, list, claim, crash: the job is in progress and nobody's. */
  lemma Abandoned()
    ensures Legal(EMPTY, ABANDONING)
    ensures var s := Run(EMPTY, ABANDONING);
            Inv(s) && Settled(s, JOB) && s.jobs[JOB].status == InProgress && s.jobs[JOB].completedAt == None
  {
    var events := ClaimedJob();
    var s := Run(EMPTY, events);
    RunSnoc(EMPTY, events, Crash(OTHER));
    assert ABANDONING == events + [At(Crash(OTHER))];
    RunKeeps(EMPTY, events);
    RunKeeps(EMPTY, ABANDONING);
    forall w ensures !Holds(Run(EMPTY, ABANDONING), w, JOB) {
      StepHeldBy(s, Crash(OTHER), 0, w);
      assert w != OTHER && Held(s, w).Some? ==> Held(s, w).value.id != JOB;
    }
    assert JobOk(Run(EMPTY, ABANDONING), JOB);
  }

  /** And so it stays, whatever happens after. */
  lemma AbandonedForever(later: seq<Event>)
    requires Legal(EMPTY, ABANDONING) && Legal(Run(EMPTY, ABANDONING), later)
    ensures var s := Run(Run(EMPTY, ABANDONING), later);
            JOB in s.jobs && s.jobs[JOB].status == InProgress && s.jobs[JOB].completedAt == None
  {
    Abandoned();
    RunSettled(Run(EMPTY, ABANDONING), later, JOB);
  }
}
