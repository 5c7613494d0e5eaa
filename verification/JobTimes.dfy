/** What each outcome makes of a job, and how long a job that is to be tried again is left alone. */
module JobTimes {
  import opened Bytes
  import opened JobQueue

  // ---- outcomes ----

  /** The error recorded: none for an empty text. */
  predicate Says(lastError: Option<string>, msg: string) {
    match lastError
    case None => msg == ""
    case Some(text) => text == msg && msg != ""
  }

  /** A job worked on is completed, failed, or pending once more, by what its handler says. The last attempt fails it,
      and which one is the last is read off the view. */
  lemma FinishReaches(s: System, w: string, outcome: Outcome, now: int)
    requires Inv(s) && Held(s, w).Some?
    ensures var view := Held(s, w).value;
            var next := Step(s, Finish(w, outcome), now).jobs;
            && view.id in s.jobs && view.id in next
            && var was, job := s.jobs[view.id], next[view.id];
            match outcome
            case Done => job == Job(was.attempts, was.nextAttempt, was.lastError, Completed, Some(now))
            case Broken(msg) =>
              && Says(job.lastError, msg)
              && job == Job(was.attempts, was.nextAttempt, job.lastError, FailedPermanently, Some(now))
            case Retry(msg, at) =>
              && Says(job.lastError, msg)
              && job == (if view.attempts < MAX_ATTEMPTS
                         then Job(was.attempts + 1, Some(at), job.lastError, Pending, None)
                         else Job(was.attempts, was.nextAttempt, job.lastError, FailedPermanently, Some(now)))
    ensures var next := Step(s, Finish(w, outcome), now).jobs;
            next.Keys == s.jobs.Keys && forall id | id in s.jobs && id != Held(s, w).value.id :: next[id] == s.jobs[id]
  {
    assert HolderOk(s, w) && JobOk(s, Held(s, w).value.id);
  }

  // ---- waiting ----

  predicate Lists(s: System, w: string, id: string) {
    exists k | 0 <= k < |WorkerOf(s, w).todo| :: WorkerOf(s, w).todo[k].id == id
  }

  /** Pending until a later time, and on no worker's list. */
  ghost predicate Resting(s: System, id: string, job: Job, until: int) {
    && id in s.jobs && s.jobs[id] == job && job.status == Pending && job.nextAttempt == Some(until)
    && forall w :: !Lists(s, w, id)
  }

  predicate AllBefore(events: seq<Event>, until: int) {
    forall e | e in events :: e.now < until
  }

  lemma StepRests(s: System, act: Act, now: int, id: string, job: Job, until: int)
    requires Inv(s) && Enabled(s, act, now) && Resting(s, id, job, until) && now < until
    ensures Resting(Step(s, act, now), id, job, until)
  {
    if act.Finish? {
      assert HolderOk(s, act.worker);
    }
    if Claims(s, act) {
      assert !Lists(s, act.worker, id);
      assert WorkerOf(s, act.worker).todo[0].id != id;
    }
    StepOther(s, act, now, id);
    forall w
      ensures !Lists(Step(s, act, now), w, id)
    {
      StepLists(s, act, now, w, id);
    }
  }

  lemma StepLists(s: System, act: Act, now: int, w: string, id: string)
    requires Enabled(s, act, now) && !Lists(s, w, id)
    requires id in s.jobs && !Due(s.jobs[id], now)
    ensures !Lists(Step(s, act, now), w, id)
  {
    var todo, next := WorkerOf(s, w).todo, WorkerOf(Step(s, act, now), w).todo;
    forall k | 0 <= k < |next|
      ensures next[k].id != id
    {
      if act.ListPending? && act.worker == w {
        assert next[k].id == act.picked[k];
      } else if act.ClaimNext? && act.worker == w {
        assert next[k] == todo[k + 1];
      } else if !(act.Crash? && act.worker == w) {
        assert next == todo;
      }
    }
  }

  /** A job nobody has on a list is left alone until its time, whatever the workers do. */
  lemma {:induction false} RunRests(s: System, events: seq<Event>, id: string, job: Job, until: int)
    requires Inv(s) && Legal(s, events) && Resting(s, id, job, until) && AllBefore(events, until)
    ensures Resting(Run(s, events), id, job, until)
    decreases |events|
  {
    if events == [] {
    } else {
      assert events[0] in events;
      StepRests(s, events[0].act, events[0].now, id, job, until);
      StepInv(s, events[0].act, events[0].now);
      RunRests(Step(s, events[0].act, events[0].now), events[1..], id, job, until);
    }
  }

  // ---- a list made before the retry ----

  lemma RunThen(s: System, act: Act, now: int, events: seq<Event>)
    requires Enabled(s, act, now) && Legal(Step(s, act, now), events)
    ensures var all := [Event(act, now)] + events;
            Legal(s, all) && Run(s, all) == Run(Step(s, act, now), events)
  {
    assert ([Event(act, now)] + events)[1..] == events;
  }

  predicate Takes(s: System, events: seq<Event>, w: string, id: string, now: int) {
    Legal(s, events) && Holds(Run(s, events), w, id) && forall e | e in events :: e.now == now
  }

  lemma TakesThen(s: System, act: Act, now: int, events: seq<Event>, w: string, id: string)
    requires Enabled(s, act, now) && Takes(Step(s, act, now), events, w, id, now)
    ensures Takes(s, [Event(act, now)] + events, w, id, now)
  {
    RunThen(s, act, now, events);
  }

  /** A worker that has a pending job on its list can reach and claim it at any time at all. */
  lemma {:induction false} Reach(s: System, w: string, id: string, now: int) returns (events: seq<Event>)
    requires Inv(s) && id in s.jobs && s.jobs[id].status == Pending && Lists(s, w, id)
    ensures Takes(s, events, w, id, now)
    decreases |WorkerOf(s, w).todo|, Held(s, w).Some?
  {
    var act := if Held(s, w).Some? then Finish(w, Done) else ClaimNext(w);
    StepInv(s, act, now);
    assert HolderOk(s, w);
    if act.ClaimNext? && WorkerOf(s, w).todo[0].id == id {
      events := [];
      assert Takes(Step(s, act, now), [], w, id, now);
    } else {
      StepOther(s, act, now, id);
      StillLists(s, act, now, w, id);
      events := Reach(Step(s, act, now), w, id, now);
    }
    TakesThen(s, act, now, events, w, id);
    events := [Event(act, now)] + events;
  }

  lemma StillLists(s: System, act: Act, now: int, w: string, id: string)
    requires Lists(s, w, id) && Enabled(s, act, now)
    requires act == Finish(w, Done) || (act == ClaimNext(w) && WorkerOf(s, w).todo[0].id != id)
    ensures Lists(Step(s, act, now), w, id)
    ensures var todo, next := WorkerOf(s, w).todo, WorkerOf(Step(s, act, now), w).todo;
            if act.Finish? then next == todo && Held(Step(s, act, now), w).None? else |next| < |todo|
  {
    var todo, next := WorkerOf(s, w).todo, WorkerOf(Step(s, act, now), w).todo;
    var k :| 0 <= k < |todo| && todo[k].id == id;
    if act.ClaimNext? {
      assert next == todo[1..] && next[k - 1] == todo[k];
    }
  }

  /** A run, all of it before the given time, after which a worker holds the job. */
  ghost predicate TakenEarly(s: System, events: seq<Event>, id: string, until: int) {
    Legal(s, events) && AllBefore(events, until) && exists w :: Holds(Run(s, events), w, id)
  }

  /** Some run takes a pending job up before its time exactly when a worker still has it on a list from before. */
  lemma EarlyIff(s: System, id: string, until: int)
    requires Inv(s) && id in s.jobs && s.jobs[id].status == Pending && s.jobs[id].nextAttempt == Some(until)
    ensures (exists events :: TakenEarly(s, events, id, until)) <==> exists w :: Lists(s, w, id)
  {
    if w :| Lists(s, w, id) {
      var events := Reach(s, w, id, until - 1);
      assert TakenEarly(s, events, id, until);
    } else {
      forall events, w | Legal(s, events) && AllBefore(events, until)
        ensures !Holds(Run(s, events), w, id)
      {
        RunRests(s, events, id, s.jobs[id], until);
        RunKeeps(s, events);
        assert HolderOk(Run(s, events), w);
      }
    }
  }
}
